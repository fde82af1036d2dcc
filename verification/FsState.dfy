/** Files on blocks: the free map, the inode table and the two-level block maps of fs.c, with the
    rule that every allocated block belongs to exactly one place. */
module FsState {
  import opened Blocks
  import opened FsCodec

  /** The superblock's view of the disk. */
  datatype Layout = Layout(size: nat, ninodes: nat, inodestart: nat, bmapstart: nat, datastart: nat) {
    predicate Ok() {
      && 2 <= inodestart
      && inodestart + ninodes / IPB + 1 <= bmapstart
      && bmapstart + size / BPB + 1 <= datastart <= size < 0x1_0000_0000
    }

    /** IBLOCK */
    function InodeBlock(i: nat): nat { i / IPB + inodestart }

    /** BBLOCK */
    function MapBlock(b: nat): nat { b / BPB + bmapstart }
  }

  const PTRS := 141   // NDIRECT direct blocks, the indirect block, NINDIRECT entries
  const INDIRECT := 12

  /** Who a block belongs to: nobody, the file system itself, or pointer k of inode i. */
  datatype Owner = Free | Meta | Slot(i: nat, k: nat)

  /** The disk as the log shows it, with its free map and inode table decoded. */
  datatype Fs = Fs(blk: seq<Block>, used: seq<bool>, ino: seq<Inode>, own: seq<Owner>)

  predicate Sizes(l: Layout, fs: Fs) {
    && l.Ok() && |fs.blk| == |fs.used| == |fs.own| == l.size && |fs.ino| == l.ninodes
    && forall i | 0 <= i < l.ninodes :: Shaped(fs.ino[i])
  }

  /** Pointer k of an inode: k < NDIRECT direct, k == NDIRECT the indirect block, above that its entries. */
  function PtrOf(blk: seq<Block>, ino: Inode, k: nat): word
    requires Shaped(ino) && k < PTRS
  {
    if k <= INDIRECT then ino.addrs[k]
    else
      var ind := ino.addrs[INDIRECT];
      if ind == 0 || ind >= |blk| then 0 else Word(blk[ind], k - 13)
  }

  function Ptr(l: Layout, fs: Fs, i: nat, k: nat): word
    requires Sizes(l, fs) && i < l.ninodes && k < PTRS
  {
    PtrOf(fs.blk, fs.ino[i], k)
  }

  /** The pointer slot of the n-th block of a file. */
  function DataSlot(n: nat): nat { if n < NDIRECT then n else n + 1 }

  // ----- Every block in one place

  predicate BlockOk(l: Layout, fs: Fs, b: nat)
    requires Sizes(l, fs) && b < l.size
  {
    && fs.used[b] == !fs.own[b].Free?
    && (b < l.datastart <==> fs.own[b].Meta?)
    && (fs.own[b].Slot? ==> fs.own[b].i < l.ninodes && fs.own[b].k < PTRS && Ptr(l, fs, fs.own[b].i, fs.own[b].k) == b)
  }

  predicate PtrOk(l: Layout, fs: Fs, i: nat, k: nat)
    requires Sizes(l, fs) && i < l.ninodes && k < PTRS
  {
    var p := Ptr(l, fs, i, k);
    p != 0 ==> p < l.size && fs.own[p] == Slot(i, k)
  }

  /** Marked in the map if and only if owned; owned by the pointer that names it, and conversely. */
  predicate Owned(l: Layout, fs: Fs) {
    && Sizes(l, fs)
    && (forall b: nat | b < l.size :: BlockOk(l, fs, b))
    && (forall i: nat, k: nat | i < l.ninodes && k < PTRS :: PtrOk(l, fs, i, k))
  }

  /** No two pointers name the same block, and a block is marked exactly when it is the file system's
      own or some pointer names it. */
  lemma OneOwner(l: Layout, fs: Fs, i: nat, k: nat, j: nat, m: nat, b: nat)
    requires Owned(l, fs) && i < l.ninodes && j < l.ninodes && k < PTRS && m < PTRS && b < l.size
    ensures Ptr(l, fs, i, k) != 0 && Ptr(l, fs, i, k) == Ptr(l, fs, j, m) ==> i == j && k == m
    ensures Ptr(l, fs, i, k) != 0 ==> l.datastart <= Ptr(l, fs, i, k) < l.size && fs.used[Ptr(l, fs, i, k)]
    ensures b >= l.datastart && fs.used[b] ==>
              exists x: nat, y: nat :: x < l.ninodes && y < PTRS && Ptr(l, fs, x, y) == b
  {
    assert PtrOk(l, fs, i, k) && PtrOk(l, fs, j, m) && BlockOk(l, fs, b);
    if Ptr(l, fs, i, k) != 0 {
      assert BlockOk(l, fs, Ptr(l, fs, i, k));
    }
    if b >= l.datastart && fs.used[b] {
      assert Ptr(l, fs, fs.own[b].i, fs.own[b].k) == b;
    }
  }

  // ----- Allocation

  /** balloc's effect on the disk: mark block b in the free map, zero it. */
  function Allocated(l: Layout, blk: seq<Block>, b: nat): (r: seq<Block>)
    requires l.Ok() && |blk| == l.size && b < l.size
    ensures |r| == l.size
  {
    MapBlockIsMeta(l, b);
    blk[l.MapBlock(b) := SetBit(blk[l.MapBlock(b)], b % BPB)][b := ZeroBlock()]
  }

  /** Pointer k of inode i gets the free block b: mark it, zero it, store its number. */
  function Take(l: Layout, fs: Fs, i: nat, k: nat, b: nat): (r: Fs)
    requires Sizes(l, fs) && i < l.ninodes && k < PTRS && b < l.size
    requires k > INDIRECT ==> fs.ino[i].addrs[INDIRECT] < l.size
  {
    var ind := fs.ino[i].addrs[INDIRECT];
    var blk := Allocated(l, fs.blk, b);
    Fs(if k <= INDIRECT then blk else blk[ind := PutWord(blk[ind], k - 13, b)],
       fs.used[b := true],
       if k <= INDIRECT then fs.ino[i := fs.ino[i].(addrs := fs.ino[i].addrs[k := b])] else fs.ino,
       fs.own[b := Slot(i, k)])
  }

  /** Pointers do not move when neither the inode nor its indirect block changes. */
  lemma PtrFrame(l: Layout, fs: Fs, t: Fs, i: nat, k: nat)
    requires Sizes(l, fs) && Sizes(l, t) && i < l.ninodes && k < PTRS
    requires t.ino[i] == fs.ino[i]
    requires var ind := fs.ino[i].addrs[INDIRECT]; ind != 0 && ind < l.size ==> t.blk[ind] == fs.blk[ind]
    ensures Ptr(l, t, i, k) == Ptr(l, fs, i, k)
  {}

  lemma IndirectOf(l: Layout, fs: Fs, i: nat)
    requires Owned(l, fs) && i < l.ninodes && fs.ino[i].addrs[INDIRECT] != 0
    ensures var ind := fs.ino[i].addrs[INDIRECT]; l.datastart <= ind < l.size && fs.own[ind] == Slot(i, INDIRECT)
  {
    assert PtrOk(l, fs, i, INDIRECT);
    assert BlockOk(l, fs, fs.ino[i].addrs[INDIRECT]);
  }

  lemma MapBlockIsMeta(l: Layout, b: nat)
    requires l.Ok() && b < l.size
    ensures l.bmapstart <= l.MapBlock(b) < l.datastart
  {}

  /** What Take does to each pointer. */
  lemma TakePtr(l: Layout, fs: Fs, i: nat, k: nat, b: nat, j: nat, m: nat)
    requires Owned(l, fs) && i < l.ninodes && k < PTRS && b < l.size && !fs.used[b]
    requires Ptr(l, fs, i, k) == 0 && (k > INDIRECT ==> fs.ino[i].addrs[INDIRECT] != 0)
    requires j < l.ninodes && m < PTRS
    ensures fs.ino[i].addrs[INDIRECT] < l.size && Sizes(l, Take(l, fs, i, k, b))
    ensures Ptr(l, Take(l, fs, i, k, b), j, m) == if i == j && k == m then b else Ptr(l, fs, j, m)
  {
    MapBlockIsMeta(l, b);
    assert BlockOk(l, fs, b) && BlockOk(l, fs, 0) && BlockOk(l, fs, l.MapBlock(b));
    if fs.ino[i].addrs[INDIRECT] != 0 {
      IndirectOf(l, fs, i);
    }
    var t := Take(l, fs, i, k, b);
    if j != i {
      if fs.ino[j].addrs[INDIRECT] != 0 {
        IndirectOf(l, fs, j);
      }
      PtrFrame(l, fs, t, j, m);
    } else if k != INDIRECT && m > INDIRECT {
      if fs.ino[i].addrs[INDIRECT] != 0 {
        assert k <= INDIRECT ==> t.blk[fs.ino[i].addrs[INDIRECT]] == fs.blk[fs.ino[i].addrs[INDIRECT]];
      }
    } else if k == INDIRECT && m > INDIRECT {
      assert t.blk[b] == ZeroBlock();
      ZeroWords(m - 13);
    }
  }

  lemma TakeKeepsOwned(l: Layout, fs: Fs, i: nat, k: nat, b: nat)
    requires Owned(l, fs) && i < l.ninodes && k < PTRS && b < l.size && !fs.used[b]
    requires Ptr(l, fs, i, k) == 0 && (k > INDIRECT ==> fs.ino[i].addrs[INDIRECT] != 0)
    ensures fs.ino[i].addrs[INDIRECT] < l.size && Owned(l, Take(l, fs, i, k, b))
  {
    TakePtr(l, fs, i, k, b, i, k);
    var t := Take(l, fs, i, k, b);
    forall x: nat | x < l.size
      ensures BlockOk(l, t, x)
    {
      assert BlockOk(l, fs, x);
      if x != b && fs.own[x].Slot? {
        TakePtr(l, fs, i, k, b, fs.own[x].i, fs.own[x].k);
      }
    }
    forall j: nat, m: nat | j < l.ninodes && m < PTRS
      ensures PtrOk(l, t, j, m)
    {
      TakePtr(l, fs, i, k, b, j, m);
      assert PtrOk(l, fs, j, m) && BlockOk(l, fs, b);
    }
  }

  // ----- File data

  /** Overwriting a block that is no indirect block moves no pointer. */
  function PutData(fs: Fs, b: nat, data: Block): Fs
    requires b < |fs.blk|
  {
    fs.(blk := fs.blk[b := data])
  }

  lemma PutDataPtr(l: Layout, fs: Fs, b: nat, data: Block, j: nat, m: nat)
    requires Owned(l, fs) && b < l.size && fs.own[b].Slot? && fs.own[b].k != INDIRECT
    requires j < l.ninodes && m < PTRS
    ensures Ptr(l, PutData(fs, b, data), j, m) == Ptr(l, fs, j, m)
  {
    if fs.ino[j].addrs[INDIRECT] != 0 {
      IndirectOf(l, fs, j);
    }
    PtrFrame(l, fs, PutData(fs, b, data), j, m);
  }

  lemma PutDataKeepsOwned(l: Layout, fs: Fs, b: nat, data: Block)
    requires Owned(l, fs) && b < l.size && fs.own[b].Slot? && fs.own[b].k != INDIRECT
    ensures Owned(l, PutData(fs, b, data))
  {
    var t := PutData(fs, b, data);
    forall x: nat | x < l.size
      ensures BlockOk(l, t, x)
    {
      assert BlockOk(l, fs, x);
      if fs.own[x].Slot? {
        PutDataPtr(l, fs, b, data, fs.own[x].i, fs.own[x].k);
      }
    }
    forall j: nat, m: nat | j < l.ninodes && m < PTRS
      ensures PtrOk(l, t, j, m)
    {
      assert PtrOk(l, fs, j, m);
      PutDataPtr(l, fs, b, data, j, m);
    }
  }

  /** The n-th block of a file, 0 if it has none. */
  function DataBlock(l: Layout, fs: Fs, i: nat, n: nat): word
    requires Sizes(l, fs) && i < l.ninodes && n < MAXFILE
  {
    Ptr(l, fs, i, DataSlot(n))
  }

  /** The file is as long as its inode says: every block below its size is there. */
  predicate NoHoles(l: Layout, fs: Fs, i: nat)
    requires Sizes(l, fs) && i < l.ninodes
  {
    && fs.ino[i].size <= MAXFILE * BSIZE
    && forall n: nat | n < MAXFILE && n * BSIZE < fs.ino[i].size :: DataBlock(l, fs, i, n) != 0
  }

  /** Byte x of file i. */
  function FileByte(l: Layout, fs: Fs, i: nat, x: nat): byte
    requires Sizes(l, fs) && i < l.ninodes && x < MAXFILE * BSIZE
  {
    var b := DataBlock(l, fs, i, x / BSIZE);
    if b < l.size then fs.blk[b][x % BSIZE] else 0
  }

  /** The file as the plain byte sequence its users see. */
  function Contents(l: Layout, fs: Fs, i: nat): (r: seq<byte>)
    requires Sizes(l, fs) && i < l.ninodes && fs.ino[i].size <= MAXFILE * BSIZE
    ensures |r| == fs.ino[i].size && forall x {:trigger r[x]} | 0 <= x < |r| :: r[x] == FileByte(l, fs, i, x)
  {
    seq(fs.ino[i].size, x requires 0 <= x < fs.ino[i].size => FileByte(l, fs, i, x))
  }

  // ----- The decoded tables and the blocks they come from

  function MapBit(l: Layout, blk: seq<Block>, b: nat): bool
    requires l.Ok() && |blk| == l.size && b < l.size
  {
    MapBlockIsMeta(l, b);
    Bits(blk[l.MapBlock(b)], BPB)[b % BPB]
  }

  function DiskInode(l: Layout, blk: seq<Block>, i: nat): (ino: Inode)
    requires l.Ok() && |blk| == l.size && i < l.ninodes
    ensures Shaped(ino)
  {
    InodeBlockIsMeta(l, i);
    GetInode(blk[l.InodeBlock(i)], i % IPB)
  }

  lemma InodeBlockIsMeta(l: Layout, i: nat)
    requires l.Ok() && i < l.ninodes
    ensures l.inodestart <= l.InodeBlock(i) < l.bmapstart
  {}

  /** The free map on disk is `used`, and every inode on disk is the one in memory,
      except that inode `skip` may be ahead of its disk copy. */
  predicate OnDisk(l: Layout, fs: Fs, skip: int) {
    && Sizes(l, fs)
    && (forall b: nat | b < l.size :: MapBit(l, fs.blk, b) == fs.used[b])
    && (forall i: nat | i < l.ninodes && i != skip :: DiskInode(l, fs.blk, i) == fs.ino[i])
  }

  lemma SetMapBit(l: Layout, blk: seq<Block>, b: nat, x: nat)
    requires l.Ok() && |blk| == l.size && b < l.size && x < l.size
    ensures l.MapBlock(b) < l.size
    ensures MapBit(l, blk[l.MapBlock(b) := SetBit(blk[l.MapBlock(b)], b % BPB)], x) == (MapBit(l, blk, x) || x == b)
  {
    MapBlockIsMeta(l, b);
    MapBlockIsMeta(l, x);
    SetBitAt(blk[l.MapBlock(b)], b % BPB);
  }

  lemma ClearMapBit(l: Layout, blk: seq<Block>, b: nat, x: nat)
    requires l.Ok() && |blk| == l.size && b < l.size && x < l.size
    ensures l.MapBlock(b) < l.size
    ensures MapBit(l, blk[l.MapBlock(b) := ClearBit(blk[l.MapBlock(b)], b % BPB)], x) == (MapBit(l, blk, x) && x != b)
  {
    MapBlockIsMeta(l, b);
    MapBlockIsMeta(l, x);
    ClearBitAt(blk[l.MapBlock(b)], b % BPB);
  }

  // ----- What allocation and data writes leave alone

  /** t differs from fs only by new blocks for inode i: old pointers stay, other inodes stay, and
      old data blocks keep their contents. */
  ghost predicate Extends(l: Layout, fs: Fs, t: Fs, i: nat) {
    && Sizes(l, fs) && Sizes(l, t) && i < l.ninodes
    && (forall j | 0 <= j < l.ninodes && j != i :: t.ino[j] == fs.ino[j])
    && t.ino[i] == fs.ino[i].(addrs := t.ino[i].addrs)
    && (forall j: nat, m: nat | j < l.ninodes && m < PTRS :: PtrKept(l, fs, t, i, j, m))
    && (forall b: nat | b < l.size :: DataKept(fs, t, b))
  }

  ghost predicate PtrKept(l: Layout, fs: Fs, t: Fs, i: nat, j: nat, m: nat)
    requires Sizes(l, fs) && Sizes(l, t) && j < l.ninodes && m < PTRS
  {
    j != i || Ptr(l, fs, j, m) != 0 ==> Ptr(l, t, j, m) == Ptr(l, fs, j, m)
  }

  ghost predicate DataKept(fs: Fs, t: Fs, b: nat)
    requires b < |fs.own| && b < |t.own| && b < |fs.blk| && b < |t.blk|
  {
    fs.own[b].Slot? && fs.own[b].k != INDIRECT ==> t.own[b] == fs.own[b] && t.blk[b] == fs.blk[b]
  }

  lemma ExtendsTransitive(l: Layout, fs: Fs, t: Fs, u: Fs, i: nat)
    requires Extends(l, fs, t, i) && Extends(l, t, u, i)
    ensures Extends(l, fs, u, i)
  {
    forall j: nat, m: nat | j < l.ninodes && m < PTRS
      ensures PtrKept(l, fs, u, i, j, m)
    {
      assert PtrKept(l, fs, t, i, j, m) && PtrKept(l, t, u, i, j, m);
    }
    forall b: nat | b < l.size
      ensures DataKept(fs, u, b)
    {
      assert DataKept(fs, t, b) && DataKept(t, u, b);
    }
  }

  lemma TakeExtends(l: Layout, fs: Fs, i: nat, k: nat, b: nat)
    requires Owned(l, fs) && i < l.ninodes && k < PTRS && b < l.size && !fs.used[b]
    requires Ptr(l, fs, i, k) == 0 && (k > INDIRECT ==> fs.ino[i].addrs[INDIRECT] != 0)
    ensures fs.ino[i].addrs[INDIRECT] < l.size && Extends(l, fs, Take(l, fs, i, k, b), i)
  {
    TakePtr(l, fs, i, k, b, i, k);
    var t := Take(l, fs, i, k, b);
    forall j: nat, m: nat | j < l.ninodes && m < PTRS
      ensures PtrKept(l, fs, t, i, j, m)
    {
      TakePtr(l, fs, i, k, b, j, m);
    }
    forall x: nat | x < l.size
      ensures DataKept(fs, t, x)
    {
      TakeKeepsData(l, fs, i, k, b, x);
    }
  }

  lemma TakeKeepsData(l: Layout, fs: Fs, i: nat, k: nat, b: nat, x: nat)
    requires Owned(l, fs) && i < l.ninodes && k < PTRS && b < l.size && !fs.used[b] && x < l.size
    requires fs.ino[i].addrs[INDIRECT] < l.size && (k > INDIRECT ==> fs.ino[i].addrs[INDIRECT] != 0)
    ensures DataKept(fs, Take(l, fs, i, k, b), x)
  {
    MapBlockIsMeta(l, b);
    assert BlockOk(l, fs, x) && BlockOk(l, fs, b) && BlockOk(l, fs, l.MapBlock(b));
    if fs.ino[i].addrs[INDIRECT] != 0 {
      IndirectOf(l, fs, i);
    }
  }

  lemma TakeOnDisk(l: Layout, fs: Fs, i: nat, k: nat, b: nat)
    requires Owned(l, fs) && OnDisk(l, fs, i) && i < l.ninodes && k < PTRS && b < l.size && !fs.used[b]
    requires fs.ino[i].addrs[INDIRECT] < l.size && (k > INDIRECT ==> fs.ino[i].addrs[INDIRECT] != 0)
    requires Sizes(l, Take(l, fs, i, k, b))
    ensures OnDisk(l, Take(l, fs, i, k, b), i)
    ensures DiskInode(l, Take(l, fs, i, k, b).blk, i) == DiskInode(l, fs.blk, i)
  {
    var t := Take(l, fs, i, k, b);
    MapBlockIsMeta(l, b);
    assert BlockOk(l, fs, b);
    if fs.ino[i].addrs[INDIRECT] != 0 {
      IndirectOf(l, fs, i);
    }
    var marked := fs.blk[l.MapBlock(b) := SetBit(fs.blk[l.MapBlock(b)], b % BPB)];
    forall x: nat | x < l.datastart
      ensures t.blk[x] == marked[x]
    {}
    forall x: nat | x < l.size
      ensures MapBit(l, t.blk, x) == t.used[x]
    {
      MapBlockIsMeta(l, x);
      SetMapBit(l, fs.blk, b, x);
    }
    forall j: nat | j < l.ninodes
      ensures DiskInode(l, t.blk, j) == DiskInode(l, fs.blk, j)
    {
      InodeBlockIsMeta(l, j);
    }
  }

  /** Data writes do not touch the tables. */
  lemma PutDataOnDisk(l: Layout, fs: Fs, b: nat, data: Block, skip: int)
    requires OnDisk(l, fs, skip) && l.datastart <= b < l.size
    ensures OnDisk(l, PutData(fs, b, data), skip)
    ensures forall j: nat | j < l.ninodes :: DiskInode(l, PutData(fs, b, data).blk, j) == DiskInode(l, fs.blk, j)
  {
    var t := PutData(fs, b, data);
    forall x: nat | x < l.size
      ensures MapBit(l, t.blk, x) == t.used[x]
    {
      MapBlockIsMeta(l, x);
    }
    forall j: nat | j < l.ninodes
      ensures DiskInode(l, t.blk, j) == DiskInode(l, fs.blk, j)
    {
      InodeBlockIsMeta(l, j);
    }
  }

  // ----- A write in progress

  predicate Spot(l: Layout, fs: Fs, j: nat, x: nat) {
    Sizes(l, fs) && j < l.ninodes && x < MAXFILE * BSIZE
  }

  /** Byte x of file j, if it was mapped, is where it was and what it was. */
  predicate ByteKept(l: Layout, fs: Fs, t: Fs, j: nat, x: nat)
    requires Spot(l, fs, j, x) && Spot(l, t, j, x)
  {
    DataBlock(l, fs, j, x / BSIZE) != 0 ==>
      DataBlock(l, t, j, x / BSIZE) == DataBlock(l, fs, j, x / BSIZE) && FileByte(l, t, j, x) == FileByte(l, fs, j, x)
  }

  /** Byte x of file i holds what a write of `src` at `off` has put there so far. */
  predicate ByteIs(l: Layout, t: Fs, i: nat, off: nat, src: seq<byte>, x: nat)
    requires Spot(l, t, i, x) && off <= x < off + |src|
  {
    DataBlock(l, t, i, x / BSIZE) != 0 && FileByte(l, t, i, x) == src[x - off]
  }

  /** After the first bytes `src` of a write to file i at `off`: those bytes are in place; every other
      mapped byte of every file is as it was; inodes are as they were, but for addresses and size of i. */
  ghost predicate Written(l: Layout, fs: Fs, t: Fs, i: nat, off: nat, src: seq<byte>) {
    && Sizes(l, fs) && Sizes(l, t) && i < l.ninodes && off + |src| <= MAXFILE * BSIZE
    && (forall j | 0 <= j < l.ninodes && j != i :: t.ino[j] == fs.ino[j])
    && t.ino[i] == fs.ino[i].(addrs := t.ino[i].addrs, size := t.ino[i].size)
    && (forall x: nat | off <= x < off + |src| :: ByteIs(l, t, i, off, src, x))
    && (forall j: nat, x: nat | Spot(l, fs, j, x) && (j != i || x < off || off + |src| <= x) :: ByteKept(l, fs, t, j, x))
  }

  lemma DataSlotInjective(m: nat, n: nat)
    requires m < MAXFILE && n < MAXFILE
    ensures DataSlot(m) < PTRS && DataSlot(m) != INDIRECT
    ensures DataSlot(m) == DataSlot(n) ==> m == n
  {}

  /** Allocation for inode i keeps every mapped byte of every file. */
  lemma ExtendsKeepsByte(l: Layout, fs: Fs, t: Fs, i: nat, j: nat, x: nat)
    requires Owned(l, fs) && Extends(l, fs, t, i) && Spot(l, fs, j, x)
    ensures ByteKept(l, fs, t, j, x)
  {
    var m := DataSlot(x / BSIZE);
    DataSlotInjective(x / BSIZE, 0);
    assert PtrKept(l, fs, t, i, j, m) && PtrOk(l, fs, j, m);
    if Ptr(l, fs, j, m) != 0 {
      assert DataKept(fs, t, Ptr(l, fs, j, m));
    }
  }

  /** Storing block n of file i changes the bytes of that block and no other mapped byte. */
  lemma PutDataByte(l: Layout, fs: Fs, i: nat, n: nat, data: Block, j: nat, x: nat)
    requires Owned(l, fs) && i < l.ninodes && n < MAXFILE && DataBlock(l, fs, i, n) != 0 && Spot(l, fs, j, x)
    ensures DataBlock(l, fs, i, n) < l.size
    ensures var t := PutData(fs, DataBlock(l, fs, i, n), data);
            && DataBlock(l, t, j, x / BSIZE) == DataBlock(l, fs, j, x / BSIZE)
            && (DataBlock(l, fs, j, x / BSIZE) != 0 ==>
                  FileByte(l, t, j, x) == if j == i && x / BSIZE == n then data[x % BSIZE] else FileByte(l, fs, j, x))
  {
    var b, m := DataBlock(l, fs, i, n), DataSlot(x / BSIZE);
    DataSlotInjective(n, x / BSIZE);
    DataSlotInjective(x / BSIZE, n);
    assert PtrOk(l, fs, i, DataSlot(n)) && PtrOk(l, fs, j, m);
    PutDataPtr(l, fs, b, data, j, m);
  }

  /** bytes laid over b from `at` on */
  function Splice(b: Block, at: nat, bytes: seq<byte>): (r: Block)
    requires at + |bytes| <= BSIZE
    ensures forall x {:trigger r[x]} | 0 <= x < BSIZE :: r[x] == if at <= x < at + |bytes| then bytes[x - at] else b[x]
  {
    b[..at] + bytes + b[at + |bytes|..]
  }

  /** The block writei stores in one turn: m bytes of `bytes` over the block at position `cur`. */
  function Stored(l: Layout, u: Fs, i: nat, cur: nat, bytes: seq<byte>): (r: Fs)
    requires Sizes(l, u) && i < l.ninodes && cur / BSIZE < MAXFILE && cur % BSIZE + |bytes| <= BSIZE
    requires DataBlock(l, u, i, cur / BSIZE) < l.size
  {
    var b := DataBlock(l, u, i, cur / BSIZE);
    PutData(u, b, Splice(u.blk[b], cur % BSIZE, bytes))
  }

  lemma StoredByte(l: Layout, u: Fs, i: nat, cur: nat, bytes: seq<byte>, j: nat, x: nat)
    requires Owned(l, u) && i < l.ninodes && cur / BSIZE < MAXFILE && cur % BSIZE + |bytes| <= BSIZE
    requires DataBlock(l, u, i, cur / BSIZE) != 0 && Spot(l, u, j, x)
    ensures DataBlock(l, u, i, cur / BSIZE) < l.size
    ensures var v := Stored(l, u, i, cur, bytes);
            && DataBlock(l, v, j, x / BSIZE) == DataBlock(l, u, j, x / BSIZE)
            && (DataBlock(l, u, j, x / BSIZE) != 0 ==>
                  FileByte(l, v, j, x) == if j == i && cur <= x < cur + |bytes| then bytes[x - cur] else FileByte(l, u, j, x))
  {
    assert PtrOk(l, u, i, DataSlot(cur / BSIZE));
    var b := DataBlock(l, u, i, cur / BSIZE);
    PutDataByte(l, u, i, cur / BSIZE, Splice(u.blk[b], cur % BSIZE, bytes), j, x);
  }

  /** One turn of writei's loop. */
  lemma WriteStep(l: Layout, fs: Fs, t: Fs, u: Fs, i: nat, off: nat, done: seq<byte>, bytes: seq<byte>)
    requires Written(l, fs, t, i, off, done) && Owned(l, t) && Owned(l, u) && Extends(l, t, u, i)
    requires off + |done| + |bytes| <= MAXFILE * BSIZE && (off + |done|) / BSIZE < MAXFILE
    requires (off + |done|) % BSIZE + |bytes| <= BSIZE && DataBlock(l, u, i, (off + |done|) / BSIZE) != 0
    ensures DataBlock(l, u, i, (off + |done|) / BSIZE) < l.size
    ensures Written(l, fs, Stored(l, u, i, off + |done|, bytes), i, off, done + bytes)
  {
    var cur := off + |done|;
    assert PtrOk(l, u, i, DataSlot(cur / BSIZE));
    var v := Stored(l, u, i, cur, bytes);
    forall x: nat | off <= x < off + |done + bytes|
      ensures ByteIs(l, v, i, off, done + bytes, x)
    {
      StoredByte(l, u, i, cur, bytes, i, x);
      if x < cur {
        assert ByteIs(l, t, i, off, done, x);
        ExtendsKeepsByte(l, t, u, i, i, x);
      } else {
        assert x / BSIZE == cur / BSIZE;
      }
    }
    forall j: nat, x: nat | Spot(l, fs, j, x) && (j != i || x < off || off + |done + bytes| <= x)
      ensures ByteKept(l, fs, v, j, x)
    {
      assert ByteKept(l, fs, t, j, x);
      ExtendsKeepsByte(l, t, u, i, j, x);
      StoredByte(l, u, i, cur, bytes, j, x);
    }
  }

  lemma NothingWritten(l: Layout, fs: Fs, i: nat, off: nat)
    requires Sizes(l, fs) && i < l.ninodes && off <= MAXFILE * BSIZE
    ensures Written(l, fs, fs, i, off, [])
  {}

  // ----- What a finished write means

  /** The splice a write performs on a plain byte sequence. */
  function Overwrite(s: seq<byte>, off: nat, src: seq<byte>): (r: seq<byte>)
    requires off <= |s|
    ensures |r| == if off + |src| > |s| then off + |src| else |s|
  {
    s[..off] + src + if off + |src| <= |s| then s[off + |src|..] else []
  }

  /** Once the size is set, file i reads as the spliced sequence and has no holes. */
  lemma WrittenContents(l: Layout, fs: Fs, t: Fs, i: nat, off: nat, src: seq<byte>)
    requires Written(l, fs, t, i, off, src) && NoHoles(l, fs, i) && off <= fs.ino[i].size
    requires t.ino[i].size == if off + |src| > fs.ino[i].size then off + |src| else fs.ino[i].size
    ensures NoHoles(l, t, i) && Contents(l, t, i) == Overwrite(Contents(l, fs, i), off, src)
  {
    var old', new' := Contents(l, fs, i), Contents(l, t, i);
    forall n: nat | n < MAXFILE && n * BSIZE < t.ino[i].size
      ensures DataBlock(l, t, i, n) != 0
    {
      MappedAt(l, fs, t, i, off, src, n * BSIZE);
    }
    forall x: nat | x < |new'|
      ensures new'[x] == Overwrite(old', off, src)[x]
    {
      if off <= x < off + |src| {
        assert ByteIs(l, t, i, off, src, x);
      } else {
        assert DataBlock(l, fs, i, x / BSIZE) != 0;
        assert ByteKept(l, fs, t, i, x);
      }
    }
  }

  lemma MappedAt(l: Layout, fs: Fs, t: Fs, i: nat, off: nat, src: seq<byte>, x: nat)
    requires Written(l, fs, t, i, off, src) && NoHoles(l, fs, i) && off <= fs.ino[i].size
    requires x < MAXFILE * BSIZE && (x < fs.ino[i].size || x < off + |src|)
    ensures DataBlock(l, t, i, x / BSIZE) != 0
  {
    if off <= x < off + |src| {
      assert ByteIs(l, t, i, off, src, x);
    } else {
      assert DataBlock(l, fs, i, x / BSIZE) != 0;
      assert ByteKept(l, fs, t, i, x);
    }
  }

  /** Every other file is untouched. */
  lemma WrittenOthers(l: Layout, fs: Fs, t: Fs, i: nat, off: nat, src: seq<byte>, j: nat)
    requires Written(l, fs, t, i, off, src) && j < l.ninodes && j != i && NoHoles(l, fs, j)
    ensures NoHoles(l, t, j) && Contents(l, t, j) == Contents(l, fs, j)
  {
    forall n: nat | n < MAXFILE && n * BSIZE < t.ino[j].size
      ensures DataBlock(l, t, j, n) != 0
    {
      assert ByteKept(l, fs, t, j, n * BSIZE);
    }
    forall x: nat | x < fs.ino[j].size
      ensures Contents(l, t, j)[x] == Contents(l, fs, j)[x]
    {
      assert DataBlock(l, fs, j, x / BSIZE) != 0;
      assert ByteKept(l, fs, t, j, x);
    }
  }

  // ----- Writing the inode back

  /** iupdate: store inode i in its block of the inode table. */
  function Updated(l: Layout, fs: Fs, i: nat): (r: Fs)
    requires Sizes(l, fs) && i < l.ninodes
    ensures Sizes(l, r)
  {
    InodeBlockIsMeta(l, i);
    var b := l.InodeBlock(i);
    fs.(blk := fs.blk[b := PutInode(fs.blk[b], i % IPB, fs.ino[i])])
  }

  lemma UpdatedPtr(l: Layout, fs: Fs, i: nat, j: nat, m: nat)
    requires Owned(l, fs) && i < l.ninodes && j < l.ninodes && m < PTRS
    ensures Ptr(l, Updated(l, fs, i), j, m) == Ptr(l, fs, j, m)
  {
    InodeBlockIsMeta(l, i);
    if fs.ino[j].addrs[INDIRECT] != 0 {
      IndirectOf(l, fs, j);
    }
    PtrFrame(l, fs, Updated(l, fs, i), j, m);
  }

  lemma UpdatedKeepsOwned(l: Layout, fs: Fs, i: nat)
    requires Owned(l, fs) && i < l.ninodes
    ensures Owned(l, Updated(l, fs, i))
  {
    var t := Updated(l, fs, i);
    forall x: nat | x < l.size
      ensures BlockOk(l, t, x)
    {
      assert BlockOk(l, fs, x);
      if fs.own[x].Slot? {
        UpdatedPtr(l, fs, i, fs.own[x].i, fs.own[x].k);
      }
    }
    forall j: nat, m: nat | j < l.ninodes && m < PTRS
      ensures PtrOk(l, t, j, m)
    {
      assert PtrOk(l, fs, j, m);
      UpdatedPtr(l, fs, i, j, m);
    }
  }

  /** After iupdate the disk holds every inode, including the one that was ahead. */
  lemma UpdatedOnDisk(l: Layout, fs: Fs, i: nat)
    requires OnDisk(l, fs, i) && i < l.ninodes
    ensures OnDisk(l, Updated(l, fs, i), -1)
  {
    var t := Updated(l, fs, i);
    InodeBlockIsMeta(l, i);
    forall x: nat | x < l.size
      ensures MapBit(l, t.blk, x) == t.used[x]
    {
      MapBlockIsMeta(l, x);
    }
    forall j: nat | j < l.ninodes
      ensures DiskInode(l, t.blk, j) == t.ino[j]
    {
      UpdatedInode(l, fs, i, j);
    }
  }

  lemma UpdatedInode(l: Layout, fs: Fs, i: nat, j: nat)
    requires Sizes(l, fs) && i < l.ninodes && j < l.ninodes
    ensures DiskInode(l, Updated(l, fs, i).blk, j) == if j == i then fs.ino[i] else DiskInode(l, fs.blk, j)
  {
    InodeBlockIsMeta(l, i);
    InodeBlockIsMeta(l, j);
    var b := fs.blk[l.InodeBlock(i)];
    InodeRoundTrip(b, i % IPB, fs.ino[i]);
    if j % IPB != i % IPB {
      InodeNeighbour(b, i % IPB, fs.ino[i], j % IPB);
    }
  }

  lemma UpdatedByte(l: Layout, fs: Fs, i: nat, j: nat, x: nat)
    requires Owned(l, fs) && i < l.ninodes && Spot(l, fs, j, x)
    ensures ByteKept(l, fs, Updated(l, fs, i), j, x)
  {
    InodeBlockIsMeta(l, i);
    var m := DataSlot(x / BSIZE);
    DataSlotInjective(x / BSIZE, 0);
    UpdatedPtr(l, fs, i, j, m);
    assert PtrOk(l, fs, j, m);
    if Ptr(l, fs, j, m) != 0 {
      assert BlockOk(l, fs, Ptr(l, fs, j, m));
    }
  }

  /** The new size of the inode that was written. */
  function Resized(fs: Fs, i: nat, size: word): Fs
    requires i < |fs.ino|
  {
    fs.(ino := fs.ino[i := fs.ino[i].(size := size)])
  }

  lemma ResizedKeeps(l: Layout, fs: Fs, i: nat, size: word)
    requires Owned(l, fs) && OnDisk(l, fs, i) && i < l.ninodes
    ensures var t := Resized(fs, i, size);
            && Owned(l, t) && OnDisk(l, t, i)
            && (forall j: nat, x: nat | Spot(l, fs, j, x) :: ByteKept(l, fs, t, j, x))
  {
    var t := Resized(fs, i, size);
    forall j: nat, m: nat | j < l.ninodes && m < PTRS
      ensures Ptr(l, t, j, m) == Ptr(l, fs, j, m) && PtrOk(l, t, j, m)
    {
      assert PtrOk(l, fs, j, m);
    }
    forall x: nat | x < l.size
      ensures BlockOk(l, t, x)
    {
      assert BlockOk(l, fs, x);
    }
  }

  /** Setting the size and writing the inode back leaves what was written as it is. */
  lemma WrittenThenUpdated(l: Layout, fs: Fs, t: Fs, i: nat, off: nat, src: seq<byte>, size: word)
    requires Written(l, fs, t, i, off, src) && Owned(l, t) && OnDisk(l, t, i)
    ensures var u := Updated(l, Resized(t, i, size), i);
            && Written(l, fs, u, i, off, src) && Owned(l, u) && OnDisk(l, u, -1)
            && u.ino[i].size == size
  {
    var s := Resized(t, i, size);
    ResizedKeeps(l, t, i, size);
    UpdatedKeepsOwned(l, s, i);
    UpdatedOnDisk(l, s, i);
    var u := Updated(l, s, i);
    forall x: nat | off <= x < off + |src|
      ensures ByteIs(l, u, i, off, src, x)
    {
      assert ByteIs(l, t, i, off, src, x) && ByteKept(l, t, s, i, x);
      UpdatedByte(l, s, i, i, x);
    }
    forall j: nat, x: nat | Spot(l, fs, j, x) && (j != i || x < off || off + |src| <= x)
      ensures ByteKept(l, fs, u, j, x)
    {
      assert ByteKept(l, fs, t, j, x) && ByteKept(l, t, s, j, x);
      UpdatedByte(l, s, i, j, x);
    }
  }

  // ----- Truncation

  /** The order in which itrunc frees pointers: direct blocks, indirect entries, the indirect block. */
  function Turn(k: nat): nat {
    if k < INDIRECT then k else if k == INDIRECT then PTRS - 1 else k - 1
  }

  /** Block b is among those itrunc has freed after n turns. */
  predicate Gone(fs: Fs, i: nat, n: nat, b: nat)
    requires b < |fs.own|
  {
    fs.own[b].Slot? && fs.own[b].i == i && Turn(fs.own[b].k) < n
  }

  /** The free map after n turns. */
  ghost predicate FreedUpTo(l: Layout, fs: Fs, used: seq<bool>, i: nat, n: nat) {
    && Sizes(l, fs) && |used| == l.size
    && forall b: nat | b < l.size :: used[b] == (fs.used[b] && !Gone(fs, i, n, b))
  }

  /** The next pointer is 0: no block is waiting for this turn. The next pointer is b: b is the one
      block of this turn, and it is still marked. */
  lemma NextTurn(l: Layout, fs: Fs, used: seq<bool>, i: nat, k: nat)
    requires Owned(l, fs) && i < l.ninodes && k < PTRS && FreedUpTo(l, fs, used, i, Turn(k))
    ensures var b := Ptr(l, fs, i, k);
            if b == 0 then FreedUpTo(l, fs, used, i, Turn(k) + 1)
            else b < l.size && used[b] && FreedUpTo(l, fs, used[b := false], i, Turn(k) + 1)
  {
    var b := Ptr(l, fs, i, k);
    assert PtrOk(l, fs, i, k);
    if b != 0 {
      assert BlockOk(l, fs, b);
    }
    forall x: nat | x < l.size && x != b
      ensures Gone(fs, i, Turn(k), x) == Gone(fs, i, Turn(k) + 1, x)
    {
      assert BlockOk(l, fs, x);
    }
    if b == 0 {
      assert BlockOk(l, fs, 0);
    }
  }

  /** Inode i without blocks. */
  function Emptied(ino: Inode): (r: Inode)
    ensures Shaped(r)
  {
    ino.(size := 0, addrs := seq(NDIRECT + 1, k => 0))
  }

  function Disowned(own: seq<Owner>, i: nat): (r: seq<Owner>)
    ensures |r| == |own|
    ensures forall b {:trigger r[b]} | 0 <= b < |r| :: r[b] == if own[b].Slot? && own[b].i == i then Free else own[b]
  {
    seq(|own|, b requires 0 <= b < |own| => if own[b].Slot? && own[b].i == i then Free else own[b])
  }

  /** Nothing outside the free map has moved. */
  ghost predicate SameOutsideMap(l: Layout, fs: Fs, blk: seq<Block>) {
    |blk| == |fs.blk| && forall x | 0 <= x < |blk| && (x < l.bmapstart || l.datastart <= x) :: blk[x] == fs.blk[x]
  }

  /** The file system once itrunc has cleared inode i. */
  function Truncated(fs: Fs, i: nat, blk: seq<Block>, used: seq<bool>): Fs
    requires i < |fs.ino|
  {
    Fs(blk, used, fs.ino[i := Emptied(fs.ino[i])], Disowned(fs.own, i))
  }

  lemma TruncatedPtr(l: Layout, fs: Fs, i: nat, blk: seq<Block>, used: seq<bool>, j: nat, m: nat)
    requires Owned(l, fs) && i < l.ninodes && |used| == l.size && SameOutsideMap(l, fs, blk)
    requires j < l.ninodes && m < PTRS
    ensures Sizes(l, Truncated(fs, i, blk, used))
    ensures Ptr(l, Truncated(fs, i, blk, used), j, m) == if j == i then 0 else Ptr(l, fs, j, m)
  {
    if j != i {
      if fs.ino[j].addrs[INDIRECT] != 0 {
        IndirectOf(l, fs, j);
      }
      PtrFrame(l, fs, Truncated(fs, i, blk, used), j, m);
    }
  }

  /** itrunc frees exactly the blocks of inode i, and keeps the ownership rule. */
  lemma TruncatedKeepsOwned(l: Layout, fs: Fs, i: nat, blk: seq<Block>, used: seq<bool>)
    requires Owned(l, fs) && i < l.ninodes && FreedUpTo(l, fs, used, i, PTRS) && SameOutsideMap(l, fs, blk)
    ensures Owned(l, Truncated(fs, i, blk, used))
    ensures forall b: nat | b < l.size :: used[b] == (fs.used[b] && !(fs.own[b].Slot? && fs.own[b].i == i))
  {
    var t := Truncated(fs, i, blk, used);
    forall b: nat | b < l.size
      ensures BlockOk(l, t, b) && used[b] == (fs.used[b] && !(fs.own[b].Slot? && fs.own[b].i == i))
    {
      assert BlockOk(l, fs, b);
      if fs.own[b].Slot? {
        TruncatedPtr(l, fs, i, blk, used, fs.own[b].i, fs.own[b].k);
      } else {
        TruncatedPtr(l, fs, i, blk, used, i, 0);
      }
    }
    forall j: nat, m: nat | j < l.ninodes && m < PTRS
      ensures PtrOk(l, t, j, m)
    {
      assert PtrOk(l, fs, j, m);
      TruncatedPtr(l, fs, i, blk, used, j, m);
    }
  }

  /** The other files do not notice. */
  lemma TruncatedOthers(l: Layout, fs: Fs, i: nat, blk: seq<Block>, used: seq<bool>, j: nat)
    requires Owned(l, fs) && i < l.ninodes && j < l.ninodes && j != i && |used| == l.size && SameOutsideMap(l, fs, blk)
    requires NoHoles(l, fs, j)
    ensures Sizes(l, Truncated(fs, i, blk, used))
    ensures NoHoles(l, Truncated(fs, i, blk, used), j) && Contents(l, Truncated(fs, i, blk, used), j) == Contents(l, fs, j)
  {
    var t := Truncated(fs, i, blk, used);
    TruncatedPtr(l, fs, i, blk, used, i, 0);
    forall n: nat | n < MAXFILE
      ensures DataBlock(l, t, j, n) == DataBlock(l, fs, j, n)
    {
      TruncatedPtr(l, fs, i, blk, used, j, DataSlot(n));
    }
    forall x: nat | x < fs.ino[j].size
      ensures FileByte(l, t, j, x) == FileByte(l, fs, j, x)
    {
      assert DataBlock(l, fs, j, x / BSIZE) != 0;
      assert PtrOk(l, fs, j, DataSlot(x / BSIZE));
      assert BlockOk(l, fs, DataBlock(l, fs, j, x / BSIZE));
    }
  }

  lemma ClearedMap(l: Layout, blk: seq<Block>, used: seq<bool>, b: nat, x: nat)
    requires l.Ok() && |blk| == |used| == l.size && b < l.size && x < l.size && MapBit(l, blk, x) == used[x]
    ensures l.bmapstart <= l.MapBlock(b) < l.datastart
    ensures MapBit(l, blk[l.MapBlock(b) := ClearBit(blk[l.MapBlock(b)], b % BPB)], x) == used[b := false][x]
  {
    MapBlockIsMeta(l, b);
    ClearMapBit(l, blk, b, x);
  }

  lemma TruncatedOnDisk(l: Layout, fs: Fs, i: nat, blk: seq<Block>, used: seq<bool>)
    requires OnDisk(l, fs, i) && i < l.ninodes && |used| == l.size && SameOutsideMap(l, fs, blk)
    requires forall x: nat | x < l.size :: MapBit(l, blk, x) == used[x]
    ensures OnDisk(l, Truncated(fs, i, blk, used), i)
  {
    forall j: nat | j < l.ninodes
      ensures DiskInode(l, blk, j) == DiskInode(l, fs.blk, j)
    {
      InodeBlockIsMeta(l, j);
    }
  }
}
