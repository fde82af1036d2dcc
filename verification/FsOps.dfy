/** fs.c on blocks: balloc, bfree, bmap, iupdate, ilock, readi, writei, itrunc, and file.c's chunked
    filewrite, proved against FsState. A block read or written here is what bread returns and
    log_write records. */
module FsOps {
  import opened Blocks
  import opened Params
  import opened FsCodec
  import opened FsState
  import opened FsFormat
  import opened FsSpace
  import RedoLog

  /** In use, in one place each, and the tables on disk (see Owned and OnDisk), kept closed:
      code that only hands it on need not look inside. */
  ghost predicate Kept(l: Layout, fs: Fs, skip: int) { KeptBehind(l, fs, skip, 1) }

  ghost predicate KeptBehind(l: Layout, fs: Fs, skip: int, turns: nat) {
    if turns == 0 then Owned(l, fs) && OnDisk(l, fs, skip) else KeptBehind(l, fs, skip, turns - 1)
  }

  /** The free map on disk reads as `used`, kept closed. */
  ghost predicate MapRead(l: Layout, blk: seq<Block>, used: seq<bool>)
    requires l.Ok() && |blk| == |used| == l.size
  {
    MapReadBehind(l, blk, used, 1)
  }

  ghost predicate MapReadBehind(l: Layout, blk: seq<Block>, used: seq<bool>, turns: nat)
    requires l.Ok() && |blk| == |used| == l.size
  {
    if turns == 0 then forall x: nat | x < l.size :: MapBit(l, blk, x) == used[x] else MapReadBehind(l, blk, used, turns - 1)
  }

  lemma KeptBits(l: Layout, fs: Fs, skip: int)
    requires Kept(l, fs, skip)
    ensures Sizes(l, fs) && MapRead(l, fs.blk, fs.used) && MetaUsed(l, fs.used)
  {
    assert KeptBehind(l, fs, skip, 0);
    forall b: nat | b < l.datastart
      ensures fs.used[b]
    {
      assert BlockOk(l, fs, b);
    }
  }

  /** `used` is the map on disk, bit by bit. */
  lemma MarksRead(l: Layout, blk: seq<Block>, used: seq<bool>)
    requires l.Ok() && |blk| == |used| == l.size && MapRead(l, blk, used)
    ensures forall x: nat | x < l.size :: Marked(l, blk, x) == used[x]
  {
    assert MapReadBehind(l, blk, used, 0);
    forall x: nat | x < l.size
      ensures Marked(l, blk, x) == used[x]
    {
      MapBitIs(l, blk, x);
    }
  }

  ghost predicate AllMarked(l: Layout, blk: seq<Block>, n: nat)
    requires l.Ok() && |blk| == l.size && n <= l.size
  {
    forall x: nat | x < n :: Marked(l, blk, x)
  }

  /** b is the lowest block whose bit on disk is clear. */
  ghost predicate FirstUnmarked(l: Layout, blk: seq<Block>, b: nat)
    requires l.Ok() && |blk| == l.size
  {
    b < l.size && !Marked(l, blk, b) && AllMarked(l, blk, b)
  }

  /** The file system's own blocks are marked. */
  ghost predicate MetaUsed(l: Layout, used: seq<bool>) {
    l.datastart <= |used| && forall b: nat | b < l.datastart :: used[b]
  }

  /** The blocks are what the writes made of those at the start; none is below the inodes. Kept closed. */
  ghost predicate Recorded(l: Layout, boot: seq<Block>, writes: seq<RedoLog.Write>, blk: seq<Block>) {
    RecordedBehind(l, boot, writes, blk, 2)
  }

  ghost predicate RecordedBehind(l: Layout, boot: seq<Block>, writes: seq<RedoLog.Write>, blk: seq<Block>, turns: nat) {
    if turns == 0 then
      blk == RedoLog.Apply(boot, writes) && forall k | 0 <= k < |writes| :: l.inodestart <= writes[k].bno < |boot|
    else
      RecordedBehind(l, boot, writes, blk, turns - 1)
  }

  lemma RecordedIs(l: Layout, boot: seq<Block>, writes: seq<RedoLog.Write>, blk: seq<Block>)
    ensures Recorded(l, boot, writes, blk) <==>
            blk == RedoLog.Apply(boot, writes) && forall k | 0 <= k < |writes| :: l.inodestart <= writes[k].bno < |boot|
  {
    assert RecordedBehind(l, boot, writes, blk, 2) == RecordedBehind(l, boot, writes, blk, 1);
    assert RecordedBehind(l, boot, writes, blk, 1) == RecordedBehind(l, boot, writes, blk, 0);
  }

  lemma RecordedNext(l: Layout, boot: seq<Block>, writes: seq<RedoLog.Write>, blk: seq<Block>, b: nat, data: Block)
    requires Recorded(l, boot, writes, blk) && l.inodestart <= b < |blk|
    ensures Recorded(l, boot, writes + [RedoLog.Write(b, data)], blk[b := data])
  {
    RecordedIs(l, boot, writes, blk);
    RecordedIs(l, boot, writes + [RedoLog.Write(b, data)], blk[b := data]);
    RedoLog.ApplyConcat(boot, writes, [RedoLog.Write(b, data)]);
  }

  /** All that Take does, in one place. */
  lemma TakeSummary(l: Layout, fs: Fs, i: nat, k: nat, b: nat)
    requires Kept(l, fs, i) && Sizes(l, fs) && i < l.ninodes && k < PTRS && b < l.size && !fs.used[b]
    requires Ptr(l, fs, i, k) == 0 && (k > INDIRECT ==> fs.ino[i].addrs[INDIRECT] != 0)
    ensures fs.ino[i].addrs[INDIRECT] < l.size && b >= l.datastart > 0
    ensures k > INDIRECT ==> b != fs.ino[i].addrs[INDIRECT] && fs.ino[i].addrs[INDIRECT] >= l.datastart
    ensures var t := Take(l, fs, i, k, b);
            && Kept(l, t, i) && Grown(l, fs, t, i)
            && Ptr(l, t, i, k) == b
            && DiskInode(l, t.blk, i) == DiskInode(l, fs.blk, i)
  {
    assert KeptBehind(l, fs, i, 0);
    TakeKeepsOwned(l, fs, i, k, b);
    TakeExtends(l, fs, i, k, b);
    TakeOnDisk(l, fs, i, k, b);
    TakePtr(l, fs, i, k, b, i, k);
    assert BlockOk(l, fs, b);
    if k > INDIRECT {
      IndirectOf(l, fs, i);
    }
  }

  /** The pointers of inode i are where they were, but for pointers a and b. */
  ghost predicate Still(l: Layout, fs: Fs, t: Fs, i: nat, a: nat, b: nat) {
    && Sizes(l, fs) && Sizes(l, t) && i < l.ninodes
    && forall m: nat | m < PTRS && m != a && m != b :: Ptr(l, t, i, m) == Ptr(l, fs, i, m)
  }

  lemma TakeStill(l: Layout, fs: Fs, i: nat, k: nat, b: nat)
    requires Kept(l, fs, i) && Sizes(l, fs) && i < l.ninodes && k < PTRS && b < l.size && !fs.used[b]
    requires Ptr(l, fs, i, k) == 0 && (k > INDIRECT ==> fs.ino[i].addrs[INDIRECT] != 0)
    requires fs.ino[i].addrs[INDIRECT] < l.size
    ensures Still(l, fs, Take(l, fs, i, k, b), i, k, k)
  {
    assert KeptBehind(l, fs, i, 0);
    TakePtr(l, fs, i, k, b, i, k);
    forall m: nat | m < PTRS && m != k
      ensures Ptr(l, Take(l, fs, i, k, b), i, m) == Ptr(l, fs, i, m)
    {
      TakePtr(l, fs, i, k, b, i, m);
    }
  }

  /** Extends, kept closed. */
  ghost predicate Grown(l: Layout, fs: Fs, t: Fs, i: nat) { GrownBehind(l, fs, t, i, 1) }

  ghost predicate GrownBehind(l: Layout, fs: Fs, t: Fs, i: nat, turns: nat) {
    if turns == 0 then Extends(l, fs, t, i) else GrownBehind(l, fs, t, i, turns - 1)
  }

  lemma GrownItself(l: Layout, fs: Fs, i: nat)
    requires Sizes(l, fs) && i < l.ninodes
    ensures Grown(l, fs, fs, i)
  {}

  lemma GrownInode(l: Layout, fs: Fs, t: Fs, i: nat)
    requires Sizes(l, fs) && Sizes(l, t) && i < l.ninodes && Grown(l, fs, t, i)
    ensures t.ino[i] == fs.ino[i].(addrs := t.ino[i].addrs)
  {
    assert GrownBehind(l, fs, t, i, 0);
  }

  lemma GrownTransitive(l: Layout, fs: Fs, t: Fs, u: Fs, i: nat)
    requires Grown(l, fs, t, i) && Grown(l, t, u, i)
    ensures Grown(l, fs, u, i)
  {
    assert GrownBehind(l, fs, t, i, 0) && GrownBehind(l, t, u, i, 0);
    ExtendsTransitive(l, fs, t, u, i);
  }

  /** Two rounds of logging add up. */
  lemma LogJoin(start: set<nat>, mid: set<nat>, end: set<nat>, a: set<nat>, b: set<nat>, x: nat, y: nat)
    requires mid <= start + a + {x} && end <= mid + b + {y} + {x}
    ensures end <= start + (a + b) + {y, x} && |a + b| <= |a| + |b|
  {
    assert a + b == a + (b - a);
  }

  lemma IndirectInRange(l: Layout, fs: Fs, i: nat)
    requires Sizes(l, fs) && i < l.ninodes && Kept(l, fs, i) && fs.ino[i].addrs[INDIRECT] != 0
    ensures fs.ino[i].addrs[INDIRECT] < l.size
  {
    assert KeptBehind(l, fs, i, 0);
    IndirectOf(l, fs, i);
  }

  lemma MapBitAt(l: Layout, blk: seq<Block>, base: nat, bi: nat)
    requires l.Ok() && |blk| == l.size && base % BPB == 0 && bi < BPB && base + bi < l.size
    ensures l.MapBlock(base) == l.MapBlock(base + bi) < l.size && (base + bi) % BPB == bi
    ensures MapBit(l, blk, base + bi) == Bits(blk[l.MapBlock(base)], BPB)[bi]
  {
    MapBlockIsMeta(l, base + bi);
  }

  lemma MapRow(l: Layout, blk: seq<Block>, used: seq<bool>, base: nat, limit: nat)
    requires l.Ok() && |blk| == |used| == l.size && MapRead(l, blk, used)
    requires base % BPB == 0 && limit <= BPB && base + limit <= l.size && base < l.size
    ensures l.MapBlock(base) < l.size
    ensures forall x | base <= x < base + limit :: used[x] == Bits(blk[l.MapBlock(base)], BPB)[x - base]
  {
    assert MapReadBehind(l, blk, used, 0);
    MapBlockIsMeta(l, base);
    forall x | base <= x < base + limit
      ensures used[x] == Bits(blk[l.MapBlock(base)], BPB)[x - base]
    {
      MapBitAt(l, blk, base, x - base);
    }
  }

  /** balloc's inner loop: the first clear bit below `limit`, or `limit`. */
  method FindClear(bp: Block, limit: nat) returns (bi: nat)
    requires limit <= BPB
    ensures bi <= limit && (bi < limit ==> !Bits(bp, BPB)[bi]) && forall x | 0 <= x < bi :: Bits(bp, BPB)[x]
  {
    bi := 0;
    while bi < limit
      invariant bi <= limit && forall x | 0 <= x < bi :: Bits(bp, BPB)[x]
    {
      BitAt(bp, BPB, bi);
      if !ByteBit(bp[bi / 8], bi % 8) {
        return;
      }
      bi := bi + 1;
    }
  }

  /** struct inode: the in-memory copy of inode `inum`. */
  class MemInode {
    const inum: nat
    var typ: half
    var major: half
    var minor: half
    var nlink: half
    var size: word
    var addrs: seq<word>

    constructor (inum: nat)
      ensures this.inum == inum && |addrs| == NDIRECT + 1
    {
      this.inum := inum;
      typ, major, minor, nlink, size, addrs := 0, 0, 0, 0, 0, seq(NDIRECT + 1, i => 0);
    }

    function View(): Inode
      reads this
    {
      Inode(typ, major, minor, nlink, size, addrs)
    }
  }

  class FileSystem {
    const l: Layout
    var blk: seq<Block>
    ghost var used: seq<bool>
    ghost var ino: seq<Inode>
    ghost var own: seq<Owner>
    ghost var logged: set<nat>   // blocks given to log_write in this transaction
    ghost const boot: seq<Block>             // the blocks at the start
    ghost var writes: seq<RedoLog.Write>     // all that was given to log_write since

    ghost function State(): Fs
      reads this
    {
      Fs(blk, used, ino, own)
    }

    /** bread, change, log_write, brelse. */
    method LogWrite(b: nat, data: Block)
      requires l.inodestart <= b < |blk| && Trace()
      modifies this`blk, this`logged, this`writes
      ensures blk == old(blk)[b := data] && logged == old(logged) + {b}
      ensures Trace() && old(writes) <= writes
    {
      RecordedNext(l, boot, writes, blk, b, data);
      blk := blk[b := data];
      logged := logged + {b};
      writes := writes + [RedoLog.Write(b, data)];
    }

    ghost predicate Trace()
      reads this
    {
      Recorded(l, boot, writes, blk)
    }

    /** balloc: the lowest free block, marked and zeroed; the source panics when there is none. */
    method Balloc() returns (ok: bool, b: nat)
      requires Sizes(l, State()) && MapRead(l, blk, used) && MetaUsed(l, used) && Trace()
      modifies this`blk, this`logged, this`writes
      ensures Trace() && old(writes) <= writes
      ensures ok ==> b < l.size && !used[b] && forall x | 0 <= x < b :: used[x]
      ensures ok ==> l.MapBlock(b) < l.size && blk == Allocated(l, old(blk), b)
      ensures ok ==> logged == old(logged) + {l.MapBlock(b), b}
      ensures !ok ==> blk == old(blk) && logged == old(logged) && writes == old(writes) && forall x | 0 <= x < l.size :: used[x]
      ensures if ok then FirstUnmarked(l, old(blk), b) else AllMarked(l, old(blk), l.size)
    {
      MarksRead(l, blk, used);
      ok, b := FindFree();
      if ok {
        MarkAndZero(b);
      }
    }

    /** balloc sets the bit of the block, and bzero. */
    method MarkAndZero(b: nat)
      requires l.Ok() && |blk| == l.size && l.datastart <= b < l.size && Trace()
      modifies this`blk, this`logged, this`writes
      ensures Trace() && old(writes) <= writes
      ensures l.MapBlock(b) < l.size && blk == Allocated(l, old(blk), b)
      ensures logged == old(logged) + {l.MapBlock(b), b}
    {
      MapBlockIsMeta(l, b);
      var m := l.MapBlock(b);
      LogWrite(m, SetBit(blk[m], b % BPB));
      LogWrite(b, ZeroBlock());
    }

    /** balloc's search: the first block whose bit is clear. */
    method FindFree() returns (found: bool, b: nat)
      requires Sizes(l, State()) && MapRead(l, blk, used)
      ensures found ==> b < l.size && !used[b]
      ensures forall x | 0 <= x < (if found then b else l.size) :: used[x]
    {
      b := 0;
      while b < l.size
        invariant b % BPB == 0 && forall x | 0 <= x < b && x < l.size :: used[x]
      {
        var bi, limit := ScanRow(b);
        if bi < limit {
          return true, b + bi;
        }
        b := b + BPB;
      }
      return false, b;
    }

    /** One map block of that search. */
    method ScanRow(base: nat) returns (bi: nat, limit: nat)
      requires Sizes(l, State()) && MapRead(l, blk, used) && base % BPB == 0 && base < l.size
      ensures bi <= limit <= BPB && base + limit == (if base + BPB <= l.size then base + BPB else l.size)
      ensures (bi < limit ==> !used[base + bi]) && forall x | base <= x < base + bi :: used[x]
    {
      MapBlockIsMeta(l, base);
      limit := if base + BPB <= l.size then BPB else l.size - base;
      bi := FindClear(blk[l.MapBlock(base)], limit);
      MapRow(l, blk, used, base, limit);
    }

    /** bfree: clear the mark; `ok` is false where the source panics ("freeing free block"). */
    method Bfree(b: nat) returns (ok: bool)
      requires Sizes(l, State()) && b < l.size && MapBit(l, blk, b) == used[b] && Trace()
      modifies this`blk, this`logged, this`writes
      ensures Trace() && old(writes) <= writes
      ensures ok == used[b] == Marked(l, old(blk), b) && l.MapBlock(b) < l.size
      ensures ok ==> blk == old(blk)[l.MapBlock(b) := ClearBit(old(blk)[l.MapBlock(b)], b % BPB)]
      ensures ok ==> logged == old(logged) + {l.MapBlock(b)}
      ensures !ok ==> blk == old(blk) && logged == old(logged)
    {
      MapBlockIsMeta(l, b);
      var bp := blk[l.MapBlock(b)];
      var bi := b % BPB;
      BitAt(bp, BPB, bi);
      MapBitIs(l, blk, b);
      if !ByteBit(bp[bi / 8], bi % 8) {
        return false;
      }
      LogWrite(l.MapBlock(b), ClearBit(bp, bi));
      return true;
    }

    /** The inode in memory is `ip`, everything else is consistent; its disk copy may be behind. */
    ghost predicate Ready(ip: MemInode)
      reads this, ip
    {
      && Sizes(l, State()) && ip.inum < l.ninodes && ino[ip.inum] == ip.View()
      && Kept(l, State(), ip.inum) && Trace()
    }

    /** bmap's allocation: a fresh block for pointer k of ip. */
    method TakeBlock(ip: MemInode, k: nat) returns (ok: bool, b: word)
      requires Ready(ip) && k < PTRS && Ptr(l, State(), ip.inum, k) == 0
      requires k > INDIRECT ==> ip.addrs[INDIRECT] != 0
      modifies this, ip`addrs
      ensures old(writes) <= writes
      ensures ok ==> b < l.size && !old(used)[b] && old(ip.addrs)[INDIRECT] < l.size && l.MapBlock(b) < l.size
      ensures ok ==> State() == Take(l, old(State()), ip.inum, k, b) && Ready(ip)
      ensures ok ==> Grown(l, old(State()), State(), ip.inum) && Ptr(l, State(), ip.inum, k) == b != 0
      ensures ok ==> DiskInode(l, blk, ip.inum) == DiskInode(l, old(blk), ip.inum)
      ensures ok ==> logged == old(logged) + {l.MapBlock(b), b} + if k > INDIRECT then {ip.addrs[INDIRECT]} else {}
      ensures ok == (FreeCount(old(used)) > 0) && (ok ==> FreeCount(used) + 1 == FreeCount(old(used)))
      ensures !ok ==> State() == old(State()) && ip.View() == old(ip.View()) && logged == old(logged) && writes == old(writes)
    {
      ghost var fs, i := State(), ip.inum;
      KeptBits(l, fs, i);
      var n: nat;
      ok, n := Balloc();
      CountAfter(used, ok, n);
      if !ok {
        return false, 0;
      }
      TakeSummary(l, fs, i, k, n);
      b := n;
      LinkBlock(ip, k, b, fs);
    }

    /** bmap stores the number of the block that balloc gave it. */
    method LinkBlock(ip: MemInode, k: nat, b: word, ghost fs: Fs)
      requires Sizes(l, fs) && ip.inum < l.ninodes && k < PTRS && b < l.size && fs.ino[ip.inum] == ip.View()
      requires ip.addrs[INDIRECT] < l.size && used == fs.used && ino == fs.ino && own == fs.own && blk == Allocated(l, fs.blk, b)
      requires (k > INDIRECT ==> l.inodestart <= ip.addrs[INDIRECT]) && Trace()
      modifies this, ip`addrs
      ensures Trace() && old(writes) <= writes
      ensures State() == Take(l, fs, ip.inum, k, b) && ino[ip.inum] == ip.View()
      ensures k > INDIRECT ==> ip.addrs[INDIRECT] == old(ip.addrs)[INDIRECT]
      ensures logged == old(logged) + if k > INDIRECT then {ip.addrs[INDIRECT]} else {}
    {
      ghost var t := Take(l, fs, ip.inum, k, b);
      if k <= INDIRECT {
        ip.addrs := ip.addrs[k := b];
      } else {
        LogWrite(ip.addrs[INDIRECT], PutWord(blk[ip.addrs[INDIRECT]], k - 13, b));
      }
      used, ino, own := t.used, t.ino, t.own;
    }

    /** Pointer k of ip, given a fresh block if it was 0. */
    method PtrFor(ip: MemInode, k: nat) returns (ok: bool, addr: word, ghost maps: set<nat>, ghost isNew: bool)
      requires Ready(ip) && k < PTRS && (k > INDIRECT ==> ip.addrs[INDIRECT] != 0)
      modifies this, ip`addrs
      ensures old(writes) <= writes
      ensures ok ==> Ready(ip) && Grown(l, old(State()), State(), ip.inum)
      ensures ok ==> addr == Ptr(l, State(), ip.inum, k) && addr != 0
      ensures ok ==> DiskInode(l, blk, ip.inum) == DiskInode(l, old(blk), ip.inum)
      ensures ok ==> Still(l, old(State()), State(), ip.inum, k, k)
      ensures isNew == (Ptr(l, old(State()), ip.inum, k) == 0)
      ensures ok && !isNew ==> State() == old(State()) && ip.View() == old(ip.View()) && logged == old(logged) && writes == old(writes)
      ensures ok ==> |maps| <= if isNew then 1 else 0
      ensures ok ==> logged <= old(logged) + maps + {addr} + if k > INDIRECT then {ip.addrs[INDIRECT]} else {}
      ensures ok == (!isNew || FreeCount(old(used)) > 0)
      ensures ok ==> FreeCount(old(used)) == FreeCount(used) + if isNew then 1 else 0
      ensures !ok ==> State() == old(State()) && ip.View() == old(ip.View()) && logged == old(logged) && writes == old(writes)
    {
      ghost var fs := State();
      if k <= INDIRECT {
        addr := ip.addrs[k];
      } else {
        IndirectInRange(l, fs, ip.inum);
        addr := Word(blk[ip.addrs[INDIRECT]], k - 13);
      }
      ok, maps, isNew := true, {}, addr == 0;
      if addr == 0 {
        ok, addr := TakeBlock(ip, k);
        if ok {
          maps := {l.MapBlock(addr)};
          TakeStill(l, fs, ip.inum, k, addr);
        }
      } else {
        GrownItself(l, fs, ip.inum);
      }
    }

    /** bmap: the block holding block bn of the file, allocated if there was none. `ok` is false where
        the source panics. The ghost results say which allocations happened and which map blocks
        they marked. */
    method Bmap(ip: MemInode, bn: nat)
      returns (ok: bool, addr: word, ghost maps: set<nat>, ghost newData: bool, ghost newInd: bool)
      requires Ready(ip)
      modifies this, ip`addrs
      ensures old(writes) <= writes
      ensures ok ==> bn < MAXFILE && Ready(ip) && Grown(l, old(State()), State(), ip.inum)
      ensures ok ==> addr == DataBlock(l, State(), ip.inum, bn) && addr != 0
      ensures ok ==> DiskInode(l, blk, ip.inum) == DiskInode(l, old(blk), ip.inum)
      ensures ok ==> newData == (DataBlock(l, old(State()), ip.inum, bn) == 0)
      ensures ok ==> newInd == (bn >= NDIRECT && old(ip.addrs)[INDIRECT] == 0)
      ensures ok && !newData ==> State() == old(State()) && ip.View() == old(ip.View()) && logged == old(logged) && writes == old(writes)
      ensures ok ==> logged <= old(logged) + maps + {addr} + if bn >= NDIRECT then {ip.addrs[INDIRECT]} else {}
      ensures ok ==> |maps| <= (if newData then 1 else 0) + if newInd then 1 else 0
      ensures ok <==> bn < MAXFILE && FreeCount(old(used)) >= BlockCost(l, old(State()), ip.inum, bn)
      ensures ok ==> FreeCount(old(used)) == FreeCount(used) + BlockCost(l, old(State()), ip.inum, bn)
      ensures ok ==> Still(l, old(State()), State(), ip.inum, DataSlot(bn), if bn < NDIRECT then bn else INDIRECT)
    {
      if bn < NDIRECT {
        newInd := false;
        ok, addr, maps, newData := PtrFor(ip, bn);
      } else if bn < MAXFILE {
        ok, addr, maps, newData, newInd := BmapIndirect(ip, bn);
      } else {
        ok, addr, maps, newData, newInd := false, 0, {}, false, false;
      }
    }

    /** bmap through the indirect block. */
    method BmapIndirect(ip: MemInode, bn: nat)
      returns (ok: bool, addr: word, ghost maps: set<nat>, ghost newData: bool, ghost newInd: bool)
      requires Ready(ip) && NDIRECT <= bn < MAXFILE
      modifies this, ip`addrs
      ensures old(writes) <= writes
      ensures ok ==> Ready(ip) && Grown(l, old(State()), State(), ip.inum)
      ensures ok ==> addr == Ptr(l, State(), ip.inum, bn + 1) && addr != 0
      ensures ok ==> DiskInode(l, blk, ip.inum) == DiskInode(l, old(blk), ip.inum)
      ensures ok ==> newData == (Ptr(l, old(State()), ip.inum, bn + 1) == 0) && newInd == (old(ip.addrs)[INDIRECT] == 0)
      ensures ok && !newData ==> State() == old(State()) && ip.View() == old(ip.View()) && logged == old(logged) && writes == old(writes)
      ensures ok ==> logged <= old(logged) + maps + {addr, ip.addrs[INDIRECT]}
      ensures ok ==> |maps| <= (if newData then 1 else 0) + if newInd then 1 else 0
      ensures ok == (FreeCount(old(used)) >= BlockCost(l, old(State()), ip.inum, bn))
      ensures ok ==> FreeCount(old(used)) == FreeCount(used) + BlockCost(l, old(State()), ip.inum, bn)
      ensures ok ==> Still(l, old(State()), State(), ip.inum, bn + 1, INDIRECT)
    {
      ghost var fs, more := State(), {};
      ok, addr, more, newInd := PtrFor(ip, INDIRECT);
      maps, newData := more, false;
      if ok {
        ghost var t, mid, ind := State(), logged, ip.addrs[INDIRECT];
        ok, addr, maps, newData := PtrFor(ip, bn + 1);
        if ok {
          GrownTransitive(l, fs, t, State(), ip.inum);
          assert ip.addrs[INDIRECT] == ind;
          LogJoin(old(logged), mid, logged, more, maps, ind, addr);
          maps := more + maps;
        }
      }
    }

    /** ip is the inode on disk, too. */
    ghost predicate Synced(ip: MemInode)
      reads this, ip
    {
      Ready(ip) && DiskInode(l, blk, ip.inum) == ip.View()
    }

    /** ilock, once the lock is held: read the inode. The source panics on a free inode. */
    method Ilock(ip: MemInode) returns (ok: bool)
      requires Sizes(l, State()) && Kept(l, State(), -1) && ip.inum < l.ninodes && Trace()
      modifies ip
      ensures Synced(ip) && ok == (ino[ip.inum].typ != 0)
    {
      assert KeptBehind(l, State(), -1, 0);
      InodeBlockIsMeta(l, ip.inum);
      var d := GetInode(blk[l.InodeBlock(ip.inum)], ip.inum % IPB);
      ip.typ, ip.major, ip.minor, ip.nlink, ip.size, ip.addrs := d.typ, d.major, d.minor, d.nlink, d.size, d.addrs;
      return ip.typ != 0;
    }

    /** iupdate */
    method Iupdate(ip: MemInode)
      requires Ready(ip)
      modifies this`blk, this`logged, this`writes
      ensures State() == Updated(l, old(State()), ip.inum) && logged == old(logged) + {l.InodeBlock(ip.inum)}
      ensures Synced(ip) && Kept(l, State(), -1) && old(writes) <= writes
    {
      ghost var fs := State();
      UpdateSummary(l, fs, ip.inum);
      InodeBlockIsMeta(l, ip.inum);
      var b := l.InodeBlock(ip.inum);
      LogWrite(b, PutInode(blk[b], ip.inum % IPB, ip.View()));
    }

    /** The body of readi's loop: m bytes at off, all in one block that is there. */
    method ReadBytes(ip: MemInode, off: nat, m: nat, ghost file: seq<byte>) returns (bytes: seq<byte>)
      requires Ready(ip) && Reads(l, State(), ip.inum, file) && 0 < m && off + m <= |file| && off % BSIZE + m <= BSIZE
      modifies this, ip`addrs
      ensures old(writes) <= writes
      ensures State() == old(State()) && ip.View() == old(ip.View()) && logged == old(logged) && writes == old(writes)
      ensures bytes == file[off..off + m]
    {
      assert ReadsBehind(l, State(), ip.inum, file, 1);
      assert ReadsBehind(l, State(), ip.inum, file, 0);
      ghost var maps: set<nat>, newData: bool, newInd: bool;
      var ok: bool, addr: word;
      assert DataBlock(l, State(), ip.inum, off / BSIZE) != 0;
      BlockInRange(l, State(), ip.inum, off / BSIZE);
      ReadStep(l, State(), ip.inum, off, m);
      ok, addr, maps, newData, newInd := Bmap(ip, off / BSIZE);
      bytes := blk[addr][off % BSIZE..off % BSIZE + m];
    }

    /** readi: refuse a bad range, clip at the end of the file, else the bytes of the file. With no
        holes, bmap never allocates here: nothing changes. */
    method Readi(ip: MemInode, start: word, count: word) returns (r: ReadResult)
      requires Ready(ip) && NoHoles(l, State(), ip.inum) && ip.typ != T_DEV
      modifies this, ip`addrs
      ensures old(writes) <= writes
      ensures State() == old(State()) && ip.View() == old(ip.View()) && logged == old(logged) && writes == old(writes)
      ensures if start > ip.size || start + count >= 0x1_0000_0000 then r == Refused
              else
                var n := if start + count > ip.size then ip.size - start else count;
                r == Bytes(Contents(l, State(), ip.inum)[start..start + n])
    {
      if start > ip.size || start + count >= 0x1_0000_0000 {
        return Refused;
      }
      var n: nat := if start + count > ip.size then ip.size - start else count;
      ghost var file := Contents(l, State(), ip.inum);
      assert ReadsBehind(l, State(), ip.inum, file, 1);
      var dst := ReadLoop(ip, start, n, file);
      return Bytes(dst);
    }

    /** readi's loop. */
    method ReadLoop(ip: MemInode, start: nat, n: nat, ghost file: seq<byte>) returns (dst: seq<byte>)
      requires Ready(ip) && Reads(l, State(), ip.inum, file) && start + n <= |file|
      modifies this, ip`addrs
      ensures old(writes) <= writes
      ensures State() == old(State()) && ip.View() == old(ip.View()) && logged == old(logged) && writes == old(writes)
      ensures dst == file[start..start + n]
    {
      var tot := 0;
      dst := [];
      while tot < n
        invariant tot <= n && dst == file[start..start + tot]
        invariant State() == old(State()) && ip.View() == old(ip.View()) && logged == old(logged) && writes == old(writes)
      {
        var off := start + tot;
        var m := if n - tot < BSIZE - off % BSIZE then n - tot else BSIZE - off % BSIZE;
        TurnFits(off, n - tot, m);
        var bytes := ReadBytes(ip, off, m, file);
        JoinSlices(file, start, off, off + m);
        dst := dst + bytes;
        tot := tot + m;
        assert start + tot == off + m;
      }
    }

    /** The body of writei's loop: find or allocate the block, lay the bytes over it, log it. */
    method StoreBytes(ip: MemInode, cur: nat, bytes: seq<byte>)
      returns (ok: bool, ghost u: Fs, addr: word, ghost maps: set<nat>, ghost newData: bool, ghost newInd: bool)
      requires Ready(ip) && cur / BSIZE < MAXFILE && cur % BSIZE + |bytes| <= BSIZE
      modifies this, ip`addrs
      ensures old(writes) <= writes
      ensures ok ==> Sizes(l, u) && Kept(l, u, ip.inum) && Grown(l, old(State()), u, ip.inum)
      ensures ok ==> addr == DataBlock(l, u, ip.inum, cur / BSIZE) && addr != 0 && addr < l.size
      ensures ok ==> State() == Stored(l, u, ip.inum, cur, bytes) && Ready(ip)
      ensures ok ==> newData == (DataBlock(l, old(State()), ip.inum, cur / BSIZE) == 0)
      ensures ok ==> newInd == (cur / BSIZE >= NDIRECT && old(ip.addrs)[INDIRECT] == 0)
      ensures ok && !newData ==> u.ino == old(ino)
      ensures ok ==> DiskInode(l, u.blk, ip.inum) == DiskInode(l, old(blk), ip.inum)
      ensures ok ==> logged <= old(logged) + maps + {addr} + if cur / BSIZE >= NDIRECT then {ip.addrs[INDIRECT]} else {}
      ensures ok ==> |maps| <= (if newData then 1 else 0) + if newInd then 1 else 0
      ensures ok == (FreeCount(old(used)) >= BlockCost(l, old(State()), ip.inum, cur / BSIZE))
      ensures ok ==> FreeCount(old(used)) == FreeCount(u.used) + BlockCost(l, old(State()), ip.inum, cur / BSIZE)
      ensures ok ==>
        var n := cur / BSIZE; Still(l, old(State()), u, ip.inum, DataSlot(n), if n < NDIRECT then n else INDIRECT)
    {
      ok, addr, maps, newData, newInd := Bmap(ip, cur / BSIZE);
      u := State();
      if ok {
        StoreSummary(l, u, ip.inum, cur, bytes);
        LogWrite(addr, Splice(blk[addr], cur % BSIZE, bytes));
      }
    }

    /** writei's loop after `tot` bytes: the bytes are in place, the tables are consistent, the inode on
        disk is still the old one, and while the write stays below the old size ip has not changed. */
    ghost predicate Writing(ip: MemInode, fs: Fs, start: nat, src: seq<byte>, tot: nat, tally: Tally, base: set<nat>)
      reads this, ip
    {
      Ready(ip) && LoopInv(l, fs, State(), ip.inum, start, src, tot, tally, base, logged)
    }

    /** One turn of writei's loop. */
    method WriteTurn(ip: MemInode, start: nat, src: seq<byte>, tot: nat, ghost fs: Fs, ghost tally: Tally, ghost base: set<nat>)
      returns (ok: bool, m: nat, ghost next: Tally)
      requires Writing(ip, fs, start, src, tot, tally, base) && tot < |src|
      modifies this, ip`addrs
      ensures old(writes) <= writes
      ensures ok ==> 0 < m <= |src| - tot && Writing(ip, fs, start, src, tot + m, next, base)
      ensures !ok ==> Sizes(l, fs) && Short(l, fs, ip.inum, start, |src|)
    {
      var cur := start + tot;
      m := if |src| - tot < BSIZE - cur % BSIZE then |src| - tot else BSIZE - cur % BSIZE;
      next := tally;
      ghost var i, t, before := ip.inum, State(), logged;
      LoopRange(l, fs, t, i, start, src, tot, tally, base, logged);
      ghost var u: Fs, maps: set<nat>, newData: bool, newInd: bool;
      var addr: word;
      ok, u, addr, maps, newData, newInd := StoreBytes(ip, cur, src[tot..tot + m]);
      if ok {
        LoopStep(l, fs, t, u, State(), i, start, src, tot, m, cur / BSIZE, tally, base, before, logged, addr, maps, newData, newInd);
        next := Tallied(tally, addr, maps, newData, newInd);
      } else {
        LoopShort(l, fs, t, i, start, src, tot, tally, base, before);
      }
    }

    /** writei's loop. */
    method WriteLoop(ip: MemInode, start: nat, src: seq<byte>) returns (ok: bool, ghost tally: Tally)
      requires Synced(ip) && NoHoles(l, State(), ip.inum) && start <= ip.size && start + |src| <= MAXFILE * BSIZE
      modifies this, ip`addrs
      ensures old(writes) <= writes
      ensures ok ==> Writing(ip, old(State()), start, src, |src|, tally, old(logged))
      ensures ok == !Short(l, old(State()), ip.inum, start, |src|)
    {
      ghost var fs := State();
      tally := Tally({}, {}, 0, 0, 0);
      var tot := 0;
      LoopStart(l, fs, ip.inum, start, src, logged);
      while tot < |src|
        invariant tot <= |src| && Writing(ip, fs, start, src, tot, tally, old(logged)) && old(writes) <= writes
      {
        var m: nat;
        ok, m, tally := WriteTurn(ip, start, src, tot, fs, tally, old(logged));
        if !ok {
          return;
        }
        tot := tot + m;
      }
      LoopEnd(l, fs, State(), ip.inum, start, src, tally, old(logged), logged);
      ok := true;
    }

    /** writei: refuse a bad range, else store `src` at `start` block by block, and if the file grew
        set its size and write the inode back. */
    method Writei(ip: MemInode, src: seq<byte>, start: word) returns (r: WriteResult)
      requires Synced(ip) && NoHoles(l, State(), ip.inum) && ip.typ != T_DEV && |src| < 0x1_0000_0000
      modifies this, ip`addrs, ip`size
      ensures old(writes) <= writes
      ensures r.Denied? ==> State() == old(State()) && ip.View() == old(ip.View()) && logged == old(logged) && writes == old(writes)
      ensures r.Denied? <==> BadRange(old(ip.size), start, |src|)
      ensures !r.Denied? <==> start <= old(ip.size) && start + |src| <= (NDIRECT + NINDIRECT) * BSIZE
      ensures r.Panic? == (!BadRange(old(ip.size), start, |src|) && Short(l, old(State()), ip.inum, start, |src|))
      ensures r.Wrote? ==> r.n == |src| && Synced(ip) && FinishedWrite(l, old(State()), State(), ip.inum, start, src)
      ensures r.Wrote? ==> Paying(l, old(State()), State(), ip.inum, start, |src|)
      ensures r.Wrote? && |src| <= MAX_CHUNK ==> FewBlocks(old(logged), logged)
    {
      if start > ip.size || start + |src| >= 0x1_0000_0000 {
        return Denied;
      }
      if start + |src| > MAXFILE * BSIZE {
        return Denied;
      }
      ghost var fs, i, tally := State(), ip.inum, Tally({}, {}, 0, 0, 0);
      var ok: bool;
      ok, tally := WriteLoop(ip, start, src);
      if !ok {
        return Panic;
      }
      FinishWrite(ip, start, src, fs, tally, old(logged));
      return Wrote(|src|);
    }

    /** The end of writei: a longer file gets its size and its inode written back. */
    method FinishWrite(ip: MemInode, start: nat, src: seq<byte>, ghost fs: Fs, ghost tally: Tally, ghost base: set<nat>)
      requires Writing(ip, fs, start, src, |src|, tally, base)
      modifies this, ip`size
      ensures old(writes) <= writes
      ensures Paying(l, fs, State(), ip.inum, start, |src|)
      ensures Synced(ip) && FinishedWrite(l, fs, State(), ip.inum, start, src)
      ensures |src| <= MAX_CHUNK ==> FewBlocks(base, logged)
    {
      ghost var i, t := ip.inum, State();
      FinishSummary(l, fs, t, i, start, src, tally, base, logged);
      if |src| > 0 && start + |src| > ip.size {
        SetSize(ip, start + |src|);
      }
    }

    /** ip->size = size; iupdate(ip) */
    method SetSize(ip: MemInode, size: word)
      requires Ready(ip) && Sizes(l, Resized(State(), ip.inum, size)) && Kept(l, Resized(State(), ip.inum, size), ip.inum)
      modifies this, ip`size
      ensures old(writes) <= writes
      ensures ip.size == size && Synced(ip) && State() == Updated(l, Resized(old(State()), ip.inum, size), ip.inum)
      ensures logged == old(logged) + {l.InodeBlock(ip.inum)}
    {
      ip.size := size;
      ino := ino[ip.inum := ip.View()];
      Iupdate(ip);
    }

    /** itrunc after some turns: the map is what is left, nothing outside the map has moved. */
    ghost predicate Freeing(fs: Fs, i: nat, n: nat)
      reads this
    {
      && l.Ok() && |blk| == |used| == l.size && MapRead(l, blk, used)
      && Halfway(l, fs, blk, used, i, n) && Trace()
    }

    /** Free the block pointer k names, if it names one; it is always marked, so bfree never panics. */
    method FreePtr(b: word, ghost fs: Fs, ghost i: nat, ghost k: nat)
      requires Kept(l, fs, i) && Sizes(l, fs) && i < l.ninodes && k < PTRS && b == Ptr(l, fs, i, k)
      requires Sizes(l, State()) && Freeing(fs, i, Turn(k))
      modifies this`blk, this`logged, this`writes, this`used
      ensures Sizes(l, State()) && Freeing(fs, i, Turn(k) + 1) && old(writes) <= writes
    {
      FreeStep(l, fs, blk, used, i, k);
      if b != 0 {
        CleanedMap(l, blk, used, b);
        var ok := Bfree(b);
        assert ok;
        used := used[b := false];
      }
    }

    /** itrunc */
    method Itrunc(ip: MemInode)
      requires Ready(ip)
      modifies this, ip`addrs, ip`size
      ensures old(writes) <= writes
      ensures Synced(ip) && Kept(l, State(), -1)
      ensures ip.View() == Emptied(old(ip.View()))
      ensures Cleared(l, old(State()), State(), ip.inum, old(ip.typ))
    {
      ghost var fs, i := State(), ip.inum;
      FreeStart(l, fs, i);
      for k := 0 to NDIRECT
        invariant Sizes(l, State()) && Freeing(fs, i, k) && ino == fs.ino && own == fs.own && old(writes) <= writes
        invariant |ip.addrs| == NDIRECT + 1 && ip.View() == fs.ino[i].(addrs := ip.addrs)
        invariant forall j | 0 <= j < k :: ip.addrs[j] == 0
        invariant forall j | k <= j <= NDIRECT :: ip.addrs[j] == fs.ino[i].addrs[j]
      {
        FreePtr(ip.addrs[k], fs, i, k);
        ip.addrs := ip.addrs[k := 0];
      }
      FreeIndirect(ip, fs);
      ip.addrs := ip.addrs[INDIRECT := 0];
      ip.size := 0;
      assert ip.addrs == Emptied(fs.ino[i]).addrs;
      FreeEnd(l, fs, blk, used, i);
      ghost var t := State();
      own, ino := Disowned(own, i), ino[i := ip.View()];
      Iupdate(ip);
      FreeUpdated(l, fs, Truncated(fs, i, t.blk, t.used), i, fs.ino[i].typ);
    }

    /** itrunc's second half: the entries of the indirect block, then the block itself. */
    method FreeIndirect(ip: MemInode, ghost fs: Fs)
      requires Kept(l, fs, ip.inum) && Sizes(l, fs) && ip.inum < l.ninodes && |ip.addrs| == NDIRECT + 1
      requires ip.addrs[INDIRECT] == fs.ino[ip.inum].addrs[INDIRECT]
      requires Sizes(l, State()) && Freeing(fs, ip.inum, NDIRECT) && ino == fs.ino && own == fs.own
      modifies this`blk, this`logged, this`writes, this`used
      ensures Sizes(l, State()) && Freeing(fs, ip.inum, PTRS) && old(writes) <= writes
    {
      ghost var i := ip.inum;
      var ind := ip.addrs[INDIRECT];
      if ind == 0 {
        NoEntries(l, fs, blk, used, i);
      } else {
        IndirectInRange(l, fs, i);
        IndirectUnmoved(l, fs, blk, used, i, NDIRECT);
        var a := blk[ind];
        for j := 0 to NINDIRECT
          invariant Sizes(l, State()) && Freeing(fs, i, NDIRECT + j) && old(writes) <= writes
        {
          FreePtr(Word(a, j), fs, i, 13 + j);
        }
        FreePtr(ind, fs, i, INDIRECT);
      }
    }

    /** iput, once the lock is held: the last reference to an inode without links frees its blocks and
        the inode; any other reference is only dropped. */
    method Iput(ip: MemInode, valid: bool, ref: nat) returns (valid': bool, ref': nat)
      requires Ready(ip) && Kept(l, State(), -1) && ref > 0
      modifies this, ip`addrs, ip`size, ip`typ
      ensures old(writes) <= writes
      ensures ref' == ref - 1 && Ready(ip) && Kept(l, State(), -1)
      ensures var last := valid && old(ip.nlink) == 0 && ref == 1;
              && valid' == (valid && !last)
              && if last then Cleared(l, old(State()), State(), ip.inum, 0) && DiskInode(l, blk, ip.inum).typ == 0
              else State() == old(State()) && ip.View() == old(ip.View()) && logged == old(logged) && writes == old(writes)
    {
      valid', ref' := valid, ref - 1;
      if valid && ip.nlink == 0 && ref == 1 {
        ghost var fs, i := State(), ip.inum;
        Itrunc(ip);
        ghost var t := State();
        ip.typ := 0;
        RetypeKeeps(l, fs, t, i, 0);
        ino := ino[i := ip.View()];
        ghost var u := State();
        assert u == Retyped(t, i, 0);
        Iupdate(ip);
        FreeUpdated(l, fs, u, i, 0);
        valid' := false;
      }
    }
  }

  /** What itrunc achieves: the file is empty, exactly its blocks became free, and every other file
      without holes reads as before. The inode's type ends up as `typ`. */
  ghost predicate Cleared(l: Layout, fs: Fs, t: Fs, i: nat, typ: half) {
    && Sizes(l, fs) && Sizes(l, t) && i < l.ninodes
    && t.ino[i] == Emptied(fs.ino[i]).(typ := typ)
    && (forall b: nat | b < l.size :: t.used[b] == (fs.used[b] && !(fs.own[b].Slot? && fs.own[b].i == i)))
    && (forall j: nat | j < l.ninodes && j != i && NoHoles(l, fs, j) :: NoHoles(l, t, j) && Contents(l, t, j) == Contents(l, fs, j))
  }

  /** FreedUpTo and SameOutsideMap, kept closed. */
  ghost predicate Halfway(l: Layout, fs: Fs, blk: seq<Block>, used: seq<bool>, i: nat, n: nat)
  {
    HalfwayBehind(l, fs, blk, used, i, n, 1)
  }

  ghost predicate HalfwayBehind(l: Layout, fs: Fs, blk: seq<Block>, used: seq<bool>, i: nat, n: nat, turns: nat) {
    if turns == 0 then FreedUpTo(l, fs, used, i, n) && SameOutsideMap(l, fs, blk)
    else HalfwayBehind(l, fs, blk, used, i, n, turns - 1)
  }

  lemma FreeStart(l: Layout, fs: Fs, i: nat)
    requires Kept(l, fs, i) && Sizes(l, fs) && i < l.ninodes
    ensures MapRead(l, fs.blk, fs.used) && Halfway(l, fs, fs.blk, fs.used, i, 0)
  {
    KeptBits(l, fs, i);
  }

  function Cleaned(l: Layout, blk: seq<Block>, b: nat): (r: seq<Block>)
    requires l.Ok() && |blk| == l.size && b < l.size
    ensures |r| == |blk| && l.MapBlock(b) < l.size
  {
    MapBlockIsMeta(l, b);
    blk[l.MapBlock(b) := ClearBit(blk[l.MapBlock(b)], b % BPB)]
  }

  /** bfree's effect on the map as read back. */
  lemma CleanedMap(l: Layout, blk: seq<Block>, used: seq<bool>, b: nat)
    requires l.Ok() && |blk| == |used| == l.size && b < l.size && MapRead(l, blk, used)
    ensures MapBit(l, blk, b) == used[b] && MapRead(l, Cleaned(l, blk, b), used[b := false])
  {
    assert MapReadBehind(l, blk, used, 0);
    forall x: nat | x < l.size
      ensures MapBit(l, Cleaned(l, blk, b), x) == used[b := false][x]
    {
      ClearedMap(l, blk, used, b, x);
    }
    assert MapReadBehind(l, Cleaned(l, blk, b), used[b := false], 0);
  }

  lemma FreeStep(l: Layout, fs: Fs, blk: seq<Block>, used: seq<bool>, i: nat, k: nat)
    requires Kept(l, fs, i) && Sizes(l, fs) && i < l.ninodes && k < PTRS && |blk| == |used| == l.size
    requires Halfway(l, fs, blk, used, i, Turn(k))
    ensures var b := Ptr(l, fs, i, k);
            if b == 0 then Halfway(l, fs, blk, used, i, Turn(k) + 1)
            else b < l.size && used[b] && Halfway(l, fs, Cleaned(l, blk, b), used[b := false], i, Turn(k) + 1)
  {
    assert KeptBehind(l, fs, i, 0) && HalfwayBehind(l, fs, blk, used, i, Turn(k), 0);
    NextTurn(l, fs, used, i, k);
    var b := Ptr(l, fs, i, k);
    if b == 0 {
      assert HalfwayBehind(l, fs, blk, used, i, Turn(k) + 1, 0);
    } else {
      MapBlockIsMeta(l, b);
      assert SameOutsideMap(l, fs, Cleaned(l, blk, b));
      assert HalfwayBehind(l, fs, Cleaned(l, blk, b), used[b := false], i, Turn(k) + 1, 0);
    }
  }

  lemma {:induction false} NoEntriesFrom(l: Layout, fs: Fs, blk: seq<Block>, used: seq<bool>, i: nat, j: nat)
    requires Kept(l, fs, i) && Sizes(l, fs) && i < l.ninodes && |blk| == |used| == l.size && fs.ino[i].addrs[INDIRECT] == 0
    requires j <= NINDIRECT && MapRead(l, blk, used) && Halfway(l, fs, blk, used, i, NDIRECT + j)
    ensures Halfway(l, fs, blk, used, i, NDIRECT + NINDIRECT)
    decreases NINDIRECT - j
  {
    if j < NINDIRECT {
      FreeStep(l, fs, blk, used, i, 13 + j);
      NoEntriesFrom(l, fs, blk, used, i, j + 1);
    }
  }

  /** Without an indirect block there is nothing left to free. */
  lemma NoEntries(l: Layout, fs: Fs, blk: seq<Block>, used: seq<bool>, i: nat)
    requires Kept(l, fs, i) && Sizes(l, fs) && i < l.ninodes && |blk| == |used| == l.size && fs.ino[i].addrs[INDIRECT] == 0
    requires MapRead(l, blk, used) && Halfway(l, fs, blk, used, i, NDIRECT)
    ensures Halfway(l, fs, blk, used, i, PTRS)
  {
    NoEntriesFrom(l, fs, blk, used, i, 0);
    FreeStep(l, fs, blk, used, i, INDIRECT);
  }

  lemma IndirectUnmoved(l: Layout, fs: Fs, blk: seq<Block>, used: seq<bool>, i: nat, n: nat)
    requires Kept(l, fs, i) && Sizes(l, fs) && i < l.ninodes && |blk| == l.size && fs.ino[i].addrs[INDIRECT] != 0
    requires Halfway(l, fs, blk, used, i, n)
    ensures fs.ino[i].addrs[INDIRECT] < l.size && blk[fs.ino[i].addrs[INDIRECT]] == fs.blk[fs.ino[i].addrs[INDIRECT]]
  {
    assert KeptBehind(l, fs, i, 0) && HalfwayBehind(l, fs, blk, used, i, n, 0);
    IndirectOf(l, fs, i);
  }

  lemma FreeEnd(l: Layout, fs: Fs, blk: seq<Block>, used: seq<bool>, i: nat)
    requires Kept(l, fs, i) && Sizes(l, fs) && i < l.ninodes && |blk| == |used| == l.size
    requires MapRead(l, blk, used) && Halfway(l, fs, blk, used, i, PTRS)
    ensures Sizes(l, Truncated(fs, i, blk, used)) && Kept(l, Truncated(fs, i, blk, used), i)
    ensures Cleared(l, fs, Truncated(fs, i, blk, used), i, fs.ino[i].typ)
  {
    assert KeptBehind(l, fs, i, 0) && HalfwayBehind(l, fs, blk, used, i, PTRS, 0) && MapReadBehind(l, blk, used, 0);
    TruncatedKeepsOwned(l, fs, i, blk, used);
    TruncatedOnDisk(l, fs, i, blk, used);
    forall j: nat | j < l.ninodes && j != i && NoHoles(l, fs, j)
      ensures NoHoles(l, Truncated(fs, i, blk, used), j)
      ensures Contents(l, Truncated(fs, i, blk, used), j) == Contents(l, fs, j)
    {
      TruncatedOthers(l, fs, i, blk, used, j);
    }
  }

  /** Writing an inode back does not change what any file without holes reads as. */
  lemma UpdatedFiles(l: Layout, fs: Fs, i: nat, j: nat)
    requires Owned(l, fs) && i < l.ninodes && j < l.ninodes && NoHoles(l, fs, j)
    ensures NoHoles(l, Updated(l, fs, i), j) && Contents(l, Updated(l, fs, i), j) == Contents(l, fs, j)
  {
    var t := Updated(l, fs, i);
    forall n: nat | n < MAXFILE && n * BSIZE < t.ino[j].size
      ensures DataBlock(l, t, j, n) != 0
    {
      UpdatedByte(l, fs, i, j, n * BSIZE);
    }
    forall x: nat | x < fs.ino[j].size
      ensures Contents(l, t, j)[x] == Contents(l, fs, j)[x]
    {
      assert DataBlock(l, fs, j, x / BSIZE) != 0;
      UpdatedByte(l, fs, i, j, x);
    }
  }

  lemma FreeUpdated(l: Layout, fs: Fs, t: Fs, i: nat, typ: half)
    requires i < l.ninodes && Kept(l, t, i) && Cleared(l, fs, t, i, typ)
    ensures Cleared(l, fs, Updated(l, t, i), i, typ)
  {
    assert KeptBehind(l, t, i, 0);
    forall j: nat | j < l.ninodes && j != i && NoHoles(l, fs, j)
      ensures NoHoles(l, Updated(l, t, i), j) && Contents(l, Updated(l, t, i), j) == Contents(l, fs, j)
    {
      UpdatedFiles(l, t, i, j);
    }
  }

  function Retyped(fs: Fs, i: nat, typ: half): Fs
    requires i < |fs.ino|
  {
    fs.(ino := fs.ino[i := fs.ino[i].(typ := typ)])
  }

  lemma RetypeKeeps(l: Layout, fs: Fs, t: Fs, i: nat, typ: half)
    requires Sizes(l, fs) && Sizes(l, t) && i < l.ninodes && Kept(l, t, i) && Cleared(l, fs, t, i, fs.ino[i].typ)
    ensures Sizes(l, Retyped(t, i, typ)) && Kept(l, Retyped(t, i, typ), i)
    ensures Cleared(l, fs, Retyped(t, i, typ), i, typ)
  {
    assert KeptBehind(l, t, i, 0);
    var u := Retyped(t, i, typ);
    forall j: nat, m: nat | j < l.ninodes && m < PTRS
      ensures Ptr(l, u, j, m) == Ptr(l, t, j, m) && PtrOk(l, u, j, m)
    {
      assert PtrOk(l, t, j, m);
    }
    forall x: nat | x < l.size
      ensures BlockOk(l, u, x)
    {
      assert BlockOk(l, t, x);
    }
    forall j: nat | j < l.ninodes && j != i && NoHoles(l, fs, j)
      ensures NoHoles(l, u, j) && Contents(l, u, j) == Contents(l, fs, j)
    {
      SameFile(l, t, u, j);
    }
  }

  lemma SameFile(l: Layout, t: Fs, u: Fs, j: nat)
    requires Sizes(l, t) && Sizes(l, u) && j < l.ninodes && t.blk == u.blk && t.ino[j] == u.ino[j] && NoHoles(l, t, j)
    ensures NoHoles(l, u, j) && Contents(l, u, j) == Contents(l, t, j)
  {
    forall n: nat | n < MAXFILE
      ensures DataBlock(l, u, j, n) == DataBlock(l, t, j, n)
    {}
  }

  /** At most MAXOPBLOCKS blocks beyond those already logged. */
  ghost predicate FewBlocks(base: set<nat>, logged: set<nat>) {
    exists more: set<nat> :: |more| <= MAXOPBLOCKS && logged <= base + more
  }

  datatype WriteResult = Denied | Panic | Wrote(n: nat)

  /** filewrite's `max`: ((MAXOPBLOCKS-1-1-2) / 2) * 512 */
  const MAX_CHUNK := (MAXOPBLOCKS - 1 - 1 - 2) / 2 * 512

  /** writei's two range tests; off + n is a 32-bit sum. */
  predicate BadRange(size: nat, off: nat, n: nat) {
    off > size || off + n >= 0x1_0000_0000 || off + n > MAXFILE * BSIZE
  }

  /** What a successful writei means: the file is the old one with `src` spliced in at `off`, no
      file has holes that had none, and no other file changed. */
  ghost predicate FinishedWrite(l: Layout, fs: Fs, t: Fs, i: nat, off: nat, src: seq<byte>) {
    && Sizes(l, fs) && Sizes(l, t) && i < l.ninodes && NoHoles(l, fs, i) && NoHoles(l, t, i) && off <= fs.ino[i].size
    && Contents(l, t, i) == Overwrite(Contents(l, fs, i), off, src)
    && forall j: nat | j < l.ninodes && j != i && NoHoles(l, fs, j) :: NoHoles(l, t, j) && Contents(l, t, j) == Contents(l, fs, j)
  }

  /** Written, kept closed. */
  ghost predicate Midway(l: Layout, fs: Fs, t: Fs, i: nat, off: nat, src: seq<byte>)
  {
    MidwayBehind(l, fs, t, i, off, src, 1)
  }

  ghost predicate MidwayBehind(l: Layout, fs: Fs, t: Fs, i: nat, off: nat, src: seq<byte>, turns: nat) {
    if turns == 0 then Written(l, fs, t, i, off, src) else MidwayBehind(l, fs, t, i, off, src, turns - 1)
  }

  /** One turn of writei's loop, and what it says about the block it needed. */
  lemma MidwayStep(l: Layout, fs: Fs, t: Fs, u: Fs, i: nat, off: nat, src: seq<byte>, tot: nat, m: nat)
    requires tot + m <= |src| && Midway(l, fs, t, i, off, src[..tot]) && off + |src| <= MAXFILE * BSIZE
    requires Sizes(l, fs) && Sizes(l, t) && Sizes(l, u) && i < l.ninodes && NoHoles(l, fs, i) && off <= fs.ino[i].size
    requires Kept(l, t, i) && Kept(l, u, i) && Grown(l, t, u, i)
    requires 0 < m && (off + tot) % BSIZE + m <= BSIZE && DataBlock(l, u, i, (off + tot) / BSIZE) != 0
    requires DataBlock(l, u, i, (off + tot) / BSIZE) < l.size
    ensures Midway(l, fs, Stored(l, u, i, off + tot, src[tot..tot + m]), i, off, src[..tot + m])
    ensures (off + tot) / BSIZE * BSIZE < fs.ino[i].size ==> DataBlock(l, t, i, (off + tot) / BSIZE) != 0
    ensures t.ino[i].addrs[INDIRECT] != 0 ==> u.ino[i].addrs[INDIRECT] == t.ino[i].addrs[INDIRECT]
    ensures (off + tot) / BSIZE >= NDIRECT ==> u.ino[i].addrs[INDIRECT] != 0
  {
    assert KeptBehind(l, t, i, 0) && KeptBehind(l, u, i, 0) && GrownBehind(l, t, u, i, 0) && MidwayBehind(l, fs, t, i, off, src[..tot], 0);
    assert src[..tot] + src[tot..tot + m] == src[..tot + m];
    assert |src[..tot]| == tot;
    WriteStep(l, fs, t, u, i, off, src[..tot], src[tot..tot + m]);
    if (off + tot) / BSIZE * BSIZE < fs.ino[i].size {
      MappedAt(l, fs, t, i, off, src[..tot], (off + tot) / BSIZE * BSIZE);
    }
    assert PtrKept(l, t, u, i, i, INDIRECT);
  }

  /** The invariant of writei's loop: the bytes so far are in place, the blocks logged and the blocks taken
      are accounted for. */
  ghost predicate LoopInv(l: Layout, fs: Fs, t: Fs, i: nat, start: nat, src: seq<byte>, tot: nat, tally: Tally,
                          base: set<nat>, logged: set<nat>)
  {
    && i < |t.ino| && Storing(l, fs, t, i, start, src, tot) && Tallying(tally, start, tot, t.ino[i].addrs, base, logged)
    && Paying(l, fs, t, i, start, tot)
  }

  /** Stores, kept closed. */
  ghost predicate Storing(l: Layout, fs: Fs, t: Fs, i: nat, start: nat, src: seq<byte>, tot: nat) {
    StoringBehind(l, fs, t, i, start, src, tot, 2)
  }

  ghost predicate StoringBehind(l: Layout, fs: Fs, t: Fs, i: nat, start: nat, src: seq<byte>, tot: nat, turns: nat) {
    if turns == 0 then Stores(l, fs, t, i, start, src, tot) else StoringBehind(l, fs, t, i, start, src, tot, turns - 1)
  }

  lemma StoringIs(l: Layout, fs: Fs, t: Fs, i: nat, start: nat, src: seq<byte>, tot: nat)
    ensures Storing(l, fs, t, i, start, src, tot) == Stores(l, fs, t, i, start, src, tot)
  {
    assert StoringBehind(l, fs, t, i, start, src, tot, 2) == StoringBehind(l, fs, t, i, start, src, tot, 1);
    assert StoringBehind(l, fs, t, i, start, src, tot, 1) == StoringBehind(l, fs, t, i, start, src, tot, 0);
  }

  /** Supplied up to the last byte written, kept closed. */
  ghost predicate Paying(l: Layout, fs: Fs, t: Fs, i: nat, start: nat, n: nat) { PayingBehind(l, fs, t, i, start, n, 2) }

  ghost predicate PayingBehind(l: Layout, fs: Fs, t: Fs, i: nat, start: nat, n: nat, turns: nat) {
    if turns == 0 then Supplied(l, fs, t, i, start / BSIZE, Reach(start, n)) else PayingBehind(l, fs, t, i, start, n, turns - 1)
  }

  lemma PayingIs(l: Layout, fs: Fs, t: Fs, i: nat, start: nat, n: nat)
    ensures Paying(l, fs, t, i, start, n) == Supplied(l, fs, t, i, start / BSIZE, Reach(start, n))
  {
    assert PayingBehind(l, fs, t, i, start, n, 2) == PayingBehind(l, fs, t, i, start, n, 1);
    assert PayingBehind(l, fs, t, i, start, n, 1) == PayingBehind(l, fs, t, i, start, n, 0);
  }

  /** The inode on disk is still the old one, and while the write stays below the old size the inode in
      memory has not changed. */
  ghost predicate Stores(l: Layout, fs: Fs, t: Fs, i: nat, start: nat, src: seq<byte>, tot: nat) {
    && tot <= |src| && Sizes(l, fs) && Sizes(l, t) && i < l.ninodes && NoHoles(l, fs, i)
    && start <= fs.ino[i].size && start + |src| <= MAXFILE * BSIZE
    && Midway(l, fs, t, i, start, src[..tot])
    && DiskInode(l, t.blk, i) == fs.ino[i] && t.ino[i] == fs.ino[i].(addrs := t.ino[i].addrs)
    && (start + tot <= fs.ino[i].size ==> t.ino[i] == fs.ino[i])
    && (0 < tot < |src| ==> (start + tot) % BSIZE == 0)
  }

  lemma LoopRange(l: Layout, fs: Fs, t: Fs, i: nat, start: nat, src: seq<byte>, tot: nat, tally: Tally, base: set<nat>, logged: set<nat>)
    requires LoopInv(l, fs, t, i, start, src, tot, tally, base, logged)
    ensures tot <= |src| && start + |src| <= MAXFILE * BSIZE
  {
    StoringIs(l, fs, t, i, start, src, tot);
  }

  /** The free blocks do not do for n bytes at `start` of file i. */
  ghost predicate Short(l: Layout, fs: Fs, i: nat, start: nat, n: nat)
    requires Sizes(l, fs) && i < l.ninodes
  {
    FreeCount(fs.used) < Needed(l, fs, i, start / BSIZE, Reach(start, n))
  }

  /** bmap fails in this turn: the blocks were too few from the start. */
  lemma LoopShort(l: Layout, fs: Fs, t: Fs, i: nat, start: nat, src: seq<byte>, tot: nat, tally: Tally, base: set<nat>, logged: set<nat>)
    requires LoopInv(l, fs, t, i, start, src, tot, tally, base, logged) && tot < |src| && Sizes(l, t) && i < l.ninodes
    requires (start + tot) / BSIZE < MAXFILE && FreeCount(t.used) < BlockCost(l, t, i, (start + tot) / BSIZE)
    ensures Sizes(l, fs) && Short(l, fs, i, start, |src|)
  {
    StoringIs(l, fs, t, i, start, src, tot);
    PayingIs(l, fs, t, i, start, tot);
    NextBlock(start, tot, |src|);
    SuppliedShort(l, fs, t, i, start / BSIZE, (start + tot) / BSIZE, Reach(start, |src|));
  }

  /** Block (start + tot) / BSIZE is the first that was not reached yet. */
  lemma NextBlock(start: nat, tot: nat, n: nat)
    requires tot < n && (tot > 0 ==> (start + tot) % BSIZE == 0) && start + n <= MAXFILE * BSIZE
    ensures Reach(start, tot) == (start + tot) / BSIZE < Reach(start, n) <= MAXFILE
  {}

  lemma SuppliedTurn(l: Layout, fs: Fs, t: Fs, u: Fs, v: Fs, i: nat, lo: nat, n: nat)
    requires Supplied(l, fs, t, i, lo, n) && n < MAXFILE && Sizes(l, u) && Grown(l, t, u, i) && DataBlock(l, u, i, n) != 0
    requires Still(l, t, u, i, DataSlot(n), if n < NDIRECT then n else INDIRECT)
    requires FreeCount(t.used) == FreeCount(u.used) + BlockCost(l, t, i, n)
    requires v.used == u.used && v.ino == u.ino && Still(l, u, v, i, INDIRECT, INDIRECT)
    ensures Supplied(l, fs, v, i, lo, n + 1)
  {
    GrownIndirect(l, t, u, i);
    assert Ptr(l, u, i, INDIRECT) == u.ino[i].addrs[INDIRECT] && Ptr(l, t, i, INDIRECT) == t.ino[i].addrs[INDIRECT];
    forall k: nat | k < MAXFILE && k != n
      ensures DataBlock(l, u, i, k) == DataBlock(l, t, i, k)
    {
      assert DataSlot(k) != DataSlot(n);
    }
    SuppliedNext(l, fs, t, u, i, lo, n);
    forall k: nat | k < MAXFILE
      ensures DataBlock(l, v, i, k) == DataBlock(l, u, i, k)
    {
      assert DataSlot(k) != INDIRECT;
    }
    SuppliedSame(l, fs, u, v, i, lo, n + 1);
  }

  lemma GrownIndirect(l: Layout, fs: Fs, t: Fs, i: nat)
    requires Sizes(l, fs) && Sizes(l, t) && i < l.ninodes && Grown(l, fs, t, i)
    ensures fs.ino[i].addrs[INDIRECT] != 0 ==> t.ino[i].addrs[INDIRECT] == fs.ino[i].addrs[INDIRECT]
  {
    assert GrownBehind(l, fs, t, i, 0);
    assert PtrKept(l, fs, t, i, i, INDIRECT);
  }

  lemma StoredStill(l: Layout, u: Fs, i: nat, cur: nat, bytes: seq<byte>)
    requires Sizes(l, u) && i < l.ninodes && Kept(l, u, i) && cur / BSIZE < MAXFILE && cur % BSIZE + |bytes| <= BSIZE
    requires 0 < DataBlock(l, u, i, cur / BSIZE) < l.size
    ensures Still(l, u, Stored(l, u, i, cur, bytes), i, INDIRECT, INDIRECT)
  {
    assert KeptBehind(l, u, i, 0);
    var b := DataBlock(l, u, i, cur / BSIZE);
    assert PtrOk(l, u, i, DataSlot(cur / BSIZE));
    forall m: nat | m < PTRS
      ensures Ptr(l, Stored(l, u, i, cur, bytes), i, m) == Ptr(l, u, i, m)
    {
      PutDataPtr(l, u, b, Splice(u.blk[b], cur % BSIZE, bytes), i, m);
    }
  }

  lemma FinishPaying(l: Layout, fs: Fs, t: Fs, i: nat, start: nat, n: nat)
    requires Sizes(l, t) && i < l.ninodes && Paying(l, fs, t, i, start, n) && Kept(l, t, i) && start + n < 0x1_0000_0000
    ensures var s := Resized(t, i, start + n); Sizes(l, s) && Paying(l, fs, Updated(l, s, i), i, start, n)
  {
    assert KeptBehind(l, t, i, 0);
    ResizedKeeps(l, t, i, start + n);
    var s := Resized(t, i, start + n);
    var u := Updated(l, s, i);
    PayingIs(l, fs, t, i, start, n);
    PayingIs(l, fs, u, i, start, n);
    forall k: nat | k < MAXFILE
      ensures DataBlock(l, u, i, k) == DataBlock(l, t, i, k)
    {
      UpdatedPtr(l, s, i, i, DataSlot(k));
    }
    SuppliedSame(l, fs, t, u, i, start / BSIZE, Reach(start, n));
  }

  lemma LoopStart(l: Layout, fs: Fs, i: nat, start: nat, src: seq<byte>, base: set<nat>)
    requires Sizes(l, fs) && i < l.ninodes && NoHoles(l, fs, i) && DiskInode(l, fs.blk, i) == fs.ino[i]
    requires start <= fs.ino[i].size && start + |src| <= MAXFILE * BSIZE
    ensures LoopInv(l, fs, fs, i, start, src, 0, Tally({}, {}, 0, 0, 0), base, base)
  {
    NothingWritten(l, fs, i, start);
    assert src[..0] == [];
    assert MidwayBehind(l, fs, fs, i, start, src[..0], 0);
    assert TallyingBehind(Tally({}, {}, 0, 0, 0), start, 0, fs.ino[i].addrs, base, base, 0);
    SuppliedNothing(l, fs, i, start / BSIZE);
    StoringIs(l, fs, fs, i, start, src, 0);
    PayingIs(l, fs, fs, i, start, 0);
  }

  lemma LoopEnd(l: Layout, fs: Fs, t: Fs, i: nat, start: nat, src: seq<byte>, tally: Tally, base: set<nat>, logged: set<nat>)
    requires LoopInv(l, fs, t, i, start, src, |src|, tally, base, logged)
    ensures Sizes(l, fs) && Sizes(l, t) && i < l.ninodes && start <= fs.ino[i].size && start + |src| <= MAXFILE * BSIZE
    ensures NoHoles(l, fs, i) && Midway(l, fs, t, i, start, src)
    ensures DiskInode(l, t.blk, i) == fs.ino[i] && t.ino[i].size == fs.ino[i].size
    ensures start + |src| <= fs.ino[i].size ==> t.ino[i] == fs.ino[i]
    ensures Tallying(tally, start, |src|, t.ino[i].addrs, base, logged)
    ensures Paying(l, fs, t, i, start, |src|) && !Short(l, fs, i, start, |src|)
  {
    assert src[..|src|] == src;
    StoringIs(l, fs, t, i, start, src, |src|);
    PayingIs(l, fs, t, i, start, |src|);
  }

  /** One turn of writei's loop, at block n: t grew into u, and the bytes went into it. */
  lemma LoopStep(l: Layout, fs: Fs, t: Fs, u: Fs, v: Fs, i: nat, start: nat, src: seq<byte>, tot: nat, m: nat, n: nat, tally: Tally,
                 base: set<nat>, before: set<nat>, logged: set<nat>, addr: nat, maps: set<nat>, newData: bool, newInd: bool)
    requires LoopInv(l, fs, t, i, start, src, tot, tally, base, before) && tot < |src|
    requires Sizes(l, t) && Sizes(l, u) && i < l.ninodes && start + |src| <= MAXFILE * BSIZE && n == (start + tot) / BSIZE
    requires TurnSize(start, tot, |src|, m) && Kept(l, t, i) && Kept(l, u, i) && Grown(l, t, u, i)
    requires addr == DataBlock(l, u, i, n) && 0 < addr < l.size && v == Stored(l, u, i, start + tot, src[tot..tot + m])
    requires newData == (DataBlock(l, t, i, n) == 0) && newInd == (n >= NDIRECT && t.ino[i].addrs[INDIRECT] == 0)
    requires !newData ==> u.ino[i] == t.ino[i]
    requires DiskInode(l, u.blk, i) == DiskInode(l, t.blk, i)
    requires logged <= before + maps + {addr} + if n >= NDIRECT then {u.ino[i].addrs[INDIRECT]} else {}
    requires |maps| <= (if newData then 1 else 0) + if newInd then 1 else 0
    requires FreeCount(t.used) == FreeCount(u.used) + BlockCost(l, t, i, n)
    requires Still(l, t, u, i, DataSlot(n), if n < NDIRECT then n else INDIRECT)
    ensures LoopInv(l, fs, v, i, start, src, tot + m, Tallied(tally, addr, maps, newData, newInd), base, logged)
  {
    StepBytes(l, fs, t, u, v, i, start, src, tot, m, n, tally, base, before, newData);
    StepTally(l, fs, t, u, v, i, start, src, tot, m, n, tally, base, before, logged, addr, maps, newData, newInd);
    StepSupply(l, fs, t, u, v, i, start, src, tot, m, n, tally, base, before);
  }

  predicate TurnSize(start: nat, tot: nat, total: nat, m: nat) {
    tot < total && m == if total - tot < BSIZE - (start + tot) % BSIZE then total - tot else BSIZE - (start + tot) % BSIZE
  }

  /** What one turn does to bytes and inode. */
  lemma StepBytes(l: Layout, fs: Fs, t: Fs, u: Fs, v: Fs, i: nat, start: nat, src: seq<byte>, tot: nat, m: nat, n: nat, tally: Tally,
                  base: set<nat>, before: set<nat>, newData: bool)
    requires LoopInv(l, fs, t, i, start, src, tot, tally, base, before) && TurnSize(start, tot, |src|, m)
    requires Sizes(l, t) && Sizes(l, u) && i < l.ninodes && start + |src| <= MAXFILE * BSIZE && n == (start + tot) / BSIZE
    requires Kept(l, t, i) && Kept(l, u, i) && Grown(l, t, u, i)
    requires 0 < DataBlock(l, u, i, n) < l.size && v == Stored(l, u, i, start + tot, src[tot..tot + m])
    requires newData == (DataBlock(l, t, i, n) == 0) && (!newData ==> u.ino[i] == t.ino[i])
    requires DiskInode(l, u.blk, i) == DiskInode(l, t.blk, i)
    ensures Sizes(l, fs) && Sizes(l, v) && v.ino == u.ino && Storing(l, fs, v, i, start, src, tot + m)
    ensures newData ==> n * BSIZE >= fs.ino[i].size
    ensures n >= NDIRECT ==> u.ino[i].addrs[INDIRECT] != 0
  {
    StoringIs(l, fs, t, i, start, src, tot);
    StoringIs(l, fs, v, i, start, src, tot + m);
    TurnEnds(start, tot, m, |src|);
    StoreSummary(l, u, i, start + tot, src[tot..tot + m]);
    MidwayStep(l, fs, t, u, i, start, src, tot, m);
    GrownInode(l, t, u, i);
  }

  /** What one turn does to the account of logged blocks. */
  lemma StepTally(l: Layout, fs: Fs, t: Fs, u: Fs, v: Fs, i: nat, start: nat, src: seq<byte>, tot: nat, m: nat, n: nat, tally: Tally,
                  base: set<nat>, before: set<nat>, logged: set<nat>, addr: nat, maps: set<nat>, newData: bool, newInd: bool)
    requires LoopInv(l, fs, t, i, start, src, tot, tally, base, before) && TurnSize(start, tot, |src|, m)
    requires Sizes(l, fs) && Sizes(l, t) && Sizes(l, u) && i < l.ninodes && v.ino == u.ino && n == (start + tot) / BSIZE && Grown(l, t, u, i)
    requires newInd == (n >= NDIRECT && t.ino[i].addrs[INDIRECT] == 0) && (newData ==> n * BSIZE >= fs.ino[i].size)
    requires n >= NDIRECT ==> u.ino[i].addrs[INDIRECT] != 0
    requires logged <= before + maps + {addr} + if n >= NDIRECT then {u.ino[i].addrs[INDIRECT]} else {}
    requires |maps| <= (if newData then 1 else 0) + if newInd then 1 else 0
    ensures Tallying(Tallied(tally, addr, maps, newData, newInd), start, tot + m, v.ino[i].addrs, base, logged)
  {
    StoringIs(l, fs, t, i, start, src, tot);
    GrownIndirect(l, t, u, i);
    CountStep(tally, fs.ino[i].size, start, tot, m, |src|, t.ino[i].addrs, u.ino[i].addrs, base, before, logged, addr, maps, newData, newInd,
              n >= NDIRECT);
  }

  /** What one turn takes: the block it needed, and the indirect block if that was missing. */
  lemma StepSupply(l: Layout, fs: Fs, t: Fs, u: Fs, v: Fs, i: nat, start: nat, src: seq<byte>, tot: nat, m: nat, n: nat, tally: Tally,
                   base: set<nat>, before: set<nat>)
    requires LoopInv(l, fs, t, i, start, src, tot, tally, base, before) && TurnSize(start, tot, |src|, m) && n == (start + tot) / BSIZE
    requires Sizes(l, t) && Sizes(l, u) && i < l.ninodes && n < MAXFILE && Kept(l, u, i) && Grown(l, t, u, i)
    requires (start + tot) % BSIZE + m <= BSIZE && tot + m <= |src|
    requires FreeCount(t.used) == FreeCount(u.used) + BlockCost(l, t, i, n)
    requires Still(l, t, u, i, DataSlot(n), if n < NDIRECT then n else INDIRECT)
    requires 0 < DataBlock(l, u, i, n) < l.size && v == Stored(l, u, i, start + tot, src[tot..tot + m])
    ensures Paying(l, fs, v, i, start, tot + m)
  {
    assert tot > 0 ==> (start + tot) % BSIZE == 0 by {
      StoringIs(l, fs, t, i, start, src, tot);
    }
    PayingBefore(l, fs, t, i, start, tot, m, |src|);
    StoredStill(l, u, i, start + tot, src[tot..tot + m]);
    SuppliedTurn(l, fs, t, u, v, i, start / BSIZE, n);
    PayingAfter(l, fs, v, i, start, tot, m, |src|);
  }

  lemma PayingBefore(l: Layout, fs: Fs, t: Fs, i: nat, start: nat, tot: nat, m: nat, total: nat)
    requires Paying(l, fs, t, i, start, tot) && TurnSize(start, tot, total, m) && (tot > 0 ==> (start + tot) % BSIZE == 0)
    ensures Supplied(l, fs, t, i, start / BSIZE, (start + tot) / BSIZE)
  {
    PayingIs(l, fs, t, i, start, tot);
    TurnEnds(start, tot, m, total);
  }

  lemma PayingAfter(l: Layout, fs: Fs, t: Fs, i: nat, start: nat, tot: nat, m: nat, total: nat)
    requires TurnSize(start, tot, total, m) && (tot > 0 ==> (start + tot) % BSIZE == 0)
    requires Supplied(l, fs, t, i, start / BSIZE, (start + tot) / BSIZE + 1)
    ensures Paying(l, fs, t, i, start, tot + m)
  {
    PayingIs(l, fs, t, i, start, tot + m);
    TurnEnds(start, tot, m, total);
  }

  lemma TurnEnds(start: nat, tot: nat, m: nat, n: nat)
    requires TurnSize(start, tot, n, m) && (tot > 0 ==> (start + tot) % BSIZE == 0)
    ensures 0 < m && tot + m <= n && (start + tot) % BSIZE + m <= BSIZE
    ensures tot + m < n ==> (start + tot + m) % BSIZE == 0
    ensures Reach(start, tot) == (start + tot) / BSIZE && Reach(start, tot + m) == (start + tot) / BSIZE + 1
  {}

  lemma MidwayUpdated(l: Layout, fs: Fs, t: Fs, i: nat, off: nat, src: seq<byte>, size: word)
    requires Midway(l, fs, t, i, off, src) && Sizes(l, t) && i < l.ninodes && Kept(l, t, i)
    ensures Sizes(l, Resized(t, i, size)) && Kept(l, Resized(t, i, size), i)
    ensures Midway(l, fs, Updated(l, Resized(t, i, size), i), i, off, src)
  {
    assert KeptBehind(l, t, i, 0) && MidwayBehind(l, fs, t, i, off, src, 0);
    ResizedKeeps(l, t, i, size);
    WrittenThenUpdated(l, fs, t, i, off, src, size);
  }

  /** The end of writei on a longer file, once size and inode are written: the file is the spliced one. */
  lemma FinishLonger(l: Layout, fs: Fs, t: Fs, s: Fs, u: Fs, i: nat, start: nat, src: seq<byte>)
    requires Sizes(l, fs) && Sizes(l, t) && i < l.ninodes && Kept(l, t, i) && Midway(l, fs, t, i, start, src)
    requires Paying(l, fs, t, i, start, |src|) && NoHoles(l, fs, i) && start <= fs.ino[i].size
    requires fs.ino[i].size < start + |src| < 0x1_0000_0000
    requires s == Resized(t, i, start + |src|) && Sizes(l, s) && u == Updated(l, s, i)
    ensures Kept(l, s, i) && FinishedWrite(l, fs, u, i, start, src) && Paying(l, fs, u, i, start, |src|)
  {
    MidwayUpdated(l, fs, t, i, start, src, start + |src|);
    FinishMidway(l, fs, u, i, start, src);
    FinishPaying(l, fs, t, i, start, |src|);
  }

  /** The end of writei: whether the size grows or not, the file is the spliced one. */
  lemma FinishSummary(l: Layout, fs: Fs, t: Fs, i: nat, start: nat, src: seq<byte>, tally: Tally, base: set<nat>, logged: set<nat>)
    requires LoopInv(l, fs, t, i, start, src, |src|, tally, base, logged) && Sizes(l, t) && i < l.ninodes && Kept(l, t, i)
    ensures start + |src| <= MAXFILE * BSIZE
    ensures if |src| > 0 && start + |src| > t.ino[i].size then
              var s := Resized(t, i, start + |src|);
              && Sizes(l, s) && Kept(l, s, i)
              && FinishedWrite(l, fs, Updated(l, s, i), i, start, src)
              && Paying(l, fs, Updated(l, s, i), i, start, |src|)
            else
              && DiskInode(l, t.blk, i) == t.ino[i] && FinishedWrite(l, fs, t, i, start, src)
              && Paying(l, fs, t, i, start, |src|)
    ensures |src| <= MAX_CHUNK ==> FewBlocks(base, logged) && FewBlocks(base, logged + {l.InodeBlock(i)})
  {
    LoopEnd(l, fs, t, i, start, src, tally, base, logged);
    FinishCount(tally, start, |src|, t.ino[i].addrs, l.InodeBlock(i), base, logged);
    if |src| > 0 && start + |src| > t.ino[i].size {
      var s := Resized(t, i, start + |src|);
      FinishLonger(l, fs, t, s, Updated(l, s, i), i, start, src);
    } else {
      FinishMidway(l, fs, t, i, start, src);
    }
  }

  lemma FinishMidway(l: Layout, fs: Fs, t: Fs, i: nat, off: nat, src: seq<byte>)
    requires Midway(l, fs, t, i, off, src) && Sizes(l, fs) && Sizes(l, t) && i < l.ninodes
    requires NoHoles(l, fs, i) && off <= fs.ino[i].size
    requires t.ino[i].size == if off + |src| > fs.ino[i].size then off + |src| else fs.ino[i].size
    ensures FinishedWrite(l, fs, t, i, off, src)
  {
    assert MidwayBehind(l, fs, t, i, off, src, 0);
    WrittenContents(l, fs, t, i, off, src);
    forall j: nat | j < l.ninodes && j != i && NoHoles(l, fs, j)
      ensures NoHoles(l, t, j) && Contents(l, t, j) == Contents(l, fs, j)
    {
      WrittenOthers(l, fs, t, i, off, src, j);
    }
  }

  // ----- How many blocks one writei logs

  /** Distinct data blocks and free-map blocks logged so far, the turns of the loop, and how many data
      blocks and indirect blocks were newly allocated. */
  datatype Tally = Tally(data: set<nat>, maps: set<nat>, turns: nat, news: nat, inds: nat)

  function IndSet(addrs: seq<word>): set<nat>
    requires |addrs| == NDIRECT + 1
  {
    if addrs[INDIRECT] != 0 then {addrs[INDIRECT]} else {}
  }

  function Touched(c: Tally, addrs: seq<word>): set<nat>
    requires |addrs| == NDIRECT + 1
  {
    c.data + c.maps + IndSet(addrs)
  }

  function Tallied(c: Tally, addr: nat, maps: set<nat>, newData: bool, newInd: bool): Tally {
    Tally(c.data + {addr}, c.maps + maps, c.turns + 1, c.news + (if newData then 1 else 0), c.inds + if newInd then 1 else 0)
  }

  /** A write that starts inside a block never allocates that block: it is below the size. */
  ghost predicate Counted(c: Tally, start: nat, tot: nat, addrs: seq<word>, base: set<nat>, logged: set<nat>) {
    && |addrs| == NDIRECT + 1 && logged <= base + Touched(c, addrs)
    && |c.data| <= c.turns && |c.maps| <= c.news + c.inds
    && c.inds <= 1 && (c.inds == 1 ==> addrs[INDIRECT] != 0)
    && c.turns == (if tot == 0 then 0 else (start + tot + BSIZE - 1) / BSIZE - start / BSIZE)
    && c.news <= c.turns - if tot > 0 && start % BSIZE != 0 then 1 else 0
  }

  /** Counted, kept closed. */
  ghost predicate Tallying(c: Tally, start: nat, tot: nat, addrs: seq<word>, base: set<nat>, logged: set<nat>)
  {
    TallyingBehind(c, start, tot, addrs, base, logged, 1)
  }

  ghost predicate TallyingBehind(c: Tally, start: nat, tot: nat, addrs: seq<word>, base: set<nat>, logged: set<nat>, turns: nat) {
    if turns == 0 then Counted(c, start, tot, addrs, base, logged) else TallyingBehind(c, start, tot, addrs, base, logged, turns - 1)
  }

  lemma CountStep(c: Tally, size: nat, start: nat, tot: nat, m: nat, n: nat, addrs: seq<word>, addrs': seq<word>,
                  base: set<nat>, before: set<nat>, logged: set<nat>, addr: nat, maps: set<nat>, newData: bool, newInd: bool, ind: bool)
    requires Tallying(c, start, tot, addrs, base, before) && |addrs| == |addrs'| == NDIRECT + 1 && tot < n && start <= size
    requires m == (if n - tot < BSIZE - (start + tot) % BSIZE then n - tot else BSIZE - (start + tot) % BSIZE)
    requires tot > 0 ==> (start + tot) % BSIZE == 0
    requires newData ==> (start + tot) / BSIZE * BSIZE >= size
    requires newInd == (ind && addrs[INDIRECT] == 0)
    requires (addrs[INDIRECT] != 0 ==> addrs'[INDIRECT] == addrs[INDIRECT]) && (ind ==> addrs'[INDIRECT] != 0)
    requires logged <= before + maps + {addr} + if ind then {addrs'[INDIRECT]} else {}
    requires |maps| <= (if newData then 1 else 0) + if newInd then 1 else 0
    ensures m > 0 && Tallying(Tallied(c, addr, maps, newData, newInd), start, tot + m, addrs', base, logged)
    ensures tot + m < n ==> (start + tot + m) % BSIZE == 0
  {
    assert TallyingBehind(c, start, tot, addrs, base, before, 0);
    TurnCount(start, tot, m, n);
    FirstTurn(start, tot, size, newData);
    TouchedStep(c, addrs, addrs', base, before, logged, addr, maps, newData, newInd, ind);
    CardStep(c, addr, maps, newData, newInd);
    var d := Tallied(c, addr, maps, newData, newInd);
    assert Counted(d, start, tot + m, addrs', base, logged);
  }

  lemma CardStep(c: Tally, addr: nat, maps: set<nat>, newData: bool, newInd: bool)
    requires |c.data| <= c.turns && |c.maps| <= c.news + c.inds
    requires |maps| <= (if newData then 1 else 0) + if newInd then 1 else 0
    ensures var d := Tallied(c, addr, maps, newData, newInd); |d.data| <= d.turns && |d.maps| <= d.news + d.inds
  {
    UnionCount(c.data, {addr});
    UnionCount(c.maps, maps);
  }

  lemma FirstTurn(start: nat, tot: nat, size: nat, newData: bool)
    requires start <= size && (newData ==> (start + tot) / BSIZE * BSIZE >= size)
    ensures newData && tot == 0 ==> start % BSIZE == 0
  {}

  lemma TurnCount(start: nat, tot: nat, m: nat, n: nat)
    requires tot < n && (tot > 0 ==> (start + tot) % BSIZE == 0)
    requires m == (if n - tot < BSIZE - (start + tot) % BSIZE then n - tot else BSIZE - (start + tot) % BSIZE)
    ensures m > 0 && (tot + m < n ==> (start + tot + m) % BSIZE == 0)
    ensures (start + tot + m + BSIZE - 1) / BSIZE == 1 + if tot == 0 then start / BSIZE else (start + tot + BSIZE - 1) / BSIZE
  {}

  lemma TouchedStep(c: Tally, addrs: seq<word>, addrs': seq<word>, base: set<nat>, before: set<nat>, logged: set<nat>,
                    addr: nat, maps: set<nat>, newData: bool, newInd: bool, ind: bool)
    requires |addrs| == |addrs'| == NDIRECT + 1 && before <= base + Touched(c, addrs)
    requires addrs[INDIRECT] != 0 ==> addrs'[INDIRECT] == addrs[INDIRECT]
    requires ind ==> addrs'[INDIRECT] != 0
    requires logged <= before + maps + {addr} + if ind then {addrs'[INDIRECT]} else {}
    ensures logged <= base + Touched(Tallied(c, addr, maps, newData, newInd), addrs')
  {}

  lemma UnionCount(a: set<nat>, b: set<nat>)
    ensures |a + b| <= |a| + |b|
  {
    assert a + b == a + (b - a);
  }

  /** At most four data blocks, four free-map blocks, one indirect block and one inode block. */
  lemma FinishCount(c: Tally, start: nat, n: nat, addrs: seq<word>, inode: nat, base: set<nat>, logged: set<nat>)
    requires Tallying(c, start, n, addrs, base, logged)
    ensures n <= MAX_CHUNK ==> FewBlocks(base, logged) && FewBlocks(base, logged + {inode})
  {
    assert TallyingBehind(c, start, n, addrs, base, logged, 0);
    if 0 < n <= MAX_CHUNK {
      ChunkTurns(start, n);
    }
    if n <= MAX_CHUNK {
      assert |c.data| <= 4 && |c.maps| <= 4;
      FourSets(c.data, c.maps, IndSet(addrs), inode);
      WithinOp(Touched(c, addrs), inode, base, logged);
    }
  }

  lemma WithinOp(s: set<nat>, inode: nat, base: set<nat>, logged: set<nat>)
    requires |s + {inode}| <= MAXOPBLOCKS && logged <= base + s
    ensures FewBlocks(base, logged) && FewBlocks(base, logged + {inode})
  {
    var more := s + {inode};
    assert logged <= base + more;
    assert logged + {inode} <= base + more;
  }

  lemma ChunkTurns(start: nat, n: nat)
    requires 0 < n <= MAX_CHUNK
    ensures (start + n + BSIZE - 1) / BSIZE - start / BSIZE <= if start % BSIZE == 0 then 3 else 4
  {}

  lemma FourSets(a: set<nat>, b: set<nat>, c: set<nat>, x: nat)
    ensures |a + b + c + {x}| <= |a| + |b| + |c| + 1
  {
    UnionCount(a, b);
    UnionCount(a + b, c);
    UnionCount(a + b + c, {x});
  }

  lemma StoreSummary(l: Layout, u: Fs, i: nat, cur: nat, bytes: seq<byte>)
    requires Sizes(l, u) && i < l.ninodes && Kept(l, u, i)
    requires cur / BSIZE < MAXFILE && cur % BSIZE + |bytes| <= BSIZE && DataBlock(l, u, i, cur / BSIZE) != 0
    ensures l.datastart <= DataBlock(l, u, i, cur / BSIZE) < l.size
    ensures var v := Stored(l, u, i, cur, bytes); Kept(l, v, i) && DiskInode(l, v.blk, i) == DiskInode(l, u.blk, i)
  {
    assert KeptBehind(l, u, i, 0);
    DataSlotInjective(cur / BSIZE, 0);
    var b := DataBlock(l, u, i, cur / BSIZE);
    assert PtrOk(l, u, i, DataSlot(cur / BSIZE)) && BlockOk(l, u, b);
    PutDataKeepsOwned(l, u, b, Splice(u.blk[b], cur % BSIZE, bytes));
    PutDataOnDisk(l, u, b, Splice(u.blk[b], cur % BSIZE, bytes), i);
  }

  datatype ReadResult = Refused | Bytes(data: seq<byte>)

  const T_DEV := 3

  lemma BlockInRange(l: Layout, fs: Fs, i: nat, bn: nat)
    requires Sizes(l, fs) && i < l.ninodes && bn < MAXFILE && Kept(l, fs, i) && DataBlock(l, fs, i, bn) != 0
    ensures DataBlock(l, fs, i, bn) < l.size
  {
    assert KeptBehind(l, fs, i, 0);
    assert PtrOk(l, fs, i, DataSlot(bn));
  }

  lemma UpdateSummary(l: Layout, fs: Fs, i: nat)
    requires Sizes(l, fs) && i < l.ninodes && Kept(l, fs, i)
    ensures var t := Updated(l, fs, i);
            Kept(l, t, i) && Kept(l, t, -1) && DiskInode(l, t.blk, i) == fs.ino[i]
  {
    assert KeptBehind(l, fs, i, 0);
    UpdatedKeepsOwned(l, fs, i);
    UpdatedOnDisk(l, fs, i);
  }

  /** File i has no holes and reads as `file`; kept closed. */
  ghost predicate Reads(l: Layout, fs: Fs, i: nat, file: seq<byte>)
    requires Sizes(l, fs) && i < l.ninodes
  {
    ReadsBehind(l, fs, i, file, 2)
  }

  ghost predicate ReadsBehind(l: Layout, fs: Fs, i: nat, file: seq<byte>, turns: nat)
    requires Sizes(l, fs) && i < l.ninodes
  {
    if turns == 0 then NoHoles(l, fs, i) && file == Contents(l, fs, i) else ReadsBehind(l, fs, i, file, turns - 1)
  }

  lemma TurnFits(off: nat, left: nat, m: nat)
    requires left > 0 && m == (if left < BSIZE - off % BSIZE then left else BSIZE - off % BSIZE)
    ensures 0 < m <= left && off % BSIZE + m <= BSIZE
  {}

  lemma JoinSlices<T>(s: seq<T>, a: nat, b: nat, c: nat)
    requires a <= b <= c <= |s|
    ensures s[a..b] + s[b..c] == s[a..c]
  {}

  /** One turn of readi's loop. */
  lemma ReadStep(l: Layout, fs: Fs, i: nat, off: nat, m: nat)
    requires Sizes(l, fs) && i < l.ninodes && NoHoles(l, fs, i) && off + m <= fs.ino[i].size && off % BSIZE + m <= BSIZE
    requires m > 0 && DataBlock(l, fs, i, off / BSIZE) < l.size
    ensures fs.blk[DataBlock(l, fs, i, off / BSIZE)][off % BSIZE..off % BSIZE + m] == Contents(l, fs, i)[off..off + m]
  {
    forall x | off <= x < off + m
      ensures x / BSIZE == off / BSIZE && x % BSIZE == off % BSIZE + (x - off)
    {}
  }
}
