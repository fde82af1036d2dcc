/** The disk format in plain arithmetic on bytes: what a bit of the free map, an inode, a block of a file and
    the log header are on disk, as mkfs.c, fs.h and log.c lay them out, and that the decoding and the updates
    that the file system and the log are built on mean exactly that. */
module FsFormat {
  import opened Blocks
  import opened Params
  import opened FsCodec
  import opened FsState
  import opened RedoLog

  // ----- Numbers in a block, least significant byte first

  function U16(b: Block, at: nat): nat
    requires at + 2 <= BSIZE
  {
    (b[at] as int) + 0x100 * (b[at + 1] as int)
  }

  function U32(b: Block, at: nat): nat
    requires at + 4 <= BSIZE
  {
    (b[at] as int) + 0x100 * (b[at + 1] as int) + 0x1_0000 * (b[at + 2] as int) + 0x100_0000 * (b[at + 3] as int)
  }

  lemma FourBytes(s: seq<byte>)
    requires |s| == 4
    ensures FromLE(s) == (s[0] as int) + 0x100 * (s[1] as int) + 0x1_0000 * (s[2] as int) + 0x100_0000 * (s[3] as int)
  {
    assert FromLE(s[1..][1..][1..]) == s[1..][1..][1..][0];
    assert FromLE(s[1..][1..]) == (s[2] as int) + 0x100 * (s[3] as int);
    assert FromLE(s[1..]) == s[1] + 0x100 * FromLE(s[1..][1..]);
  }

  lemma WordBytes(b: Block, k: nat)
    requires k < WORDS
    ensures Word(b, k) == U32(b, 4 * k)
  {
    FourBytes(b[4 * k..4 * k + 4]);
  }

  /** A stored word changes its own four bytes only. */
  lemma PutWordBytes(b: Block, k: nat, w: word, x: nat)
    requires k < WORDS && x < BSIZE
    ensures U32(PutWord(b, k, w), 4 * k) == w
    ensures x / 4 != k ==> PutWord(b, k, w)[x] == b[x]
  {
    WordBytes(PutWord(b, k, w), k);
  }

  // ----- The free map

  function Pow2(k: nat): (r: nat)
    ensures r > 0
  {
    if k == 0 then 1 else 2 * Pow2(k - 1)
  }

  predicate OneBit(m: bv8) { m == 1 || m == 2 || m == 4 || m == 8 || m == 16 || m == 32 || m == 64 || m == 128 }

  lemma MaskIs(k: nat)
    requires k < 8
    ensures OneBit(Mask(k)) && Mask(k) as int == [1, 2, 4, 8, 16, 32, 64, 128][k]
  {}

  lemma Pow2Is(k: nat)
    requires k < 8
    ensures Pow2(k) == [1, 2, 4, 8, 16, 32, 64, 128][k]
  {
    assert Pow2(1) == 2 && Pow2(2) == 4 && Pow2(3) == 8 && Pow2(4) == 16;
    assert Pow2(5) == 32 && Pow2(6) == 64 && Pow2(7) == 128;
  }

  lemma OrAdds(v: bv8, m: bv8)
    requires OneBit(m)
    ensures (v | m) as int == (v as int) + if v & m != 0 then 0 else m as int
  {}

  lemma AndTakes(v: bv8, m: bv8)
    requires OneBit(m)
    ensures (v & !m) as int == (v as int) - if v & m != 0 then m as int else 0
  {}

  /** Bit k of v, as a mask and as a number. */
  predicate BitMeans(v: bv8, k: nat)
    requires k < 8
  {
    (v & Mask(k) != 0) == ((v as int) / Pow2(k) % 2 == 1)
  }

  lemma Test0(v: bv8)
    ensures BitMeans(v, 0)
  {
    Pow2Is(0);
    assert (v & 1 != 0) == ((v as int) / 1 % 2 == 1);
  }

  lemma Test1(v: bv8)
    ensures BitMeans(v, 1)
  {
    Pow2Is(1);
    assert (v & 2 != 0) == ((v as int) / 2 % 2 == 1);
  }

  lemma Test2(v: bv8)
    ensures BitMeans(v, 2)
  {
    Pow2Is(2);
    assert (v & 4 != 0) == ((v as int) / 4 % 2 == 1);
  }

  lemma Test3(v: bv8)
    ensures BitMeans(v, 3)
  {
    Pow2Is(3);
    assert (v & 8 != 0) == ((v as int) / 8 % 2 == 1);
  }

  lemma Test4(v: bv8)
    ensures BitMeans(v, 4)
  {
    Pow2Is(4);
    assert (v & 16 != 0) == ((v as int) / 16 % 2 == 1);
  }

  lemma Test5(v: bv8)
    ensures BitMeans(v, 5)
  {
    Pow2Is(5);
    assert (v & 32 != 0) == ((v as int) / 32 % 2 == 1);
  }

  lemma Test6(v: bv8)
    ensures BitMeans(v, 6)
  {
    Pow2Is(6);
    assert (v & 64 != 0) == ((v as int) / 64 % 2 == 1);
  }

  lemma Test7(v: bv8)
    ensures BitMeans(v, 7)
  {
    Pow2Is(7);
    assert (v & 128 != 0) == ((v as int) / 128 % 2 == 1);
  }

  lemma TestDivides(v: bv8, k: nat)
    requires k < 8
    ensures BitMeans(v, k)
  {
    match k
    case 0 => Test0(v);
    case 1 => Test1(v);
    case 2 => Test2(v);
    case 3 => Test3(v);
    case 4 => Test4(v);
    case 5 => Test5(v);
    case 6 => Test6(v);
    case 7 => Test7(v);
  }

  /** Every byte is the value of eight bits. */
  lemma {:induction false} SomeBits(x: byte) returns (v: bv8)
    ensures v as int == x
  {
    v := 0;
    if x > 0 {
      var w := SomeBits(x - 1);
      v := w + 1;
    }
  }

  lemma ByteAsBits(x: byte)
    ensures AsBits(x) as int == x
  {
    var v := SomeBits(x);
    ByteRoundTrip(v);
  }

  /** Bit k of a byte of the map, and the byte once it is set or cleared. */
  lemma BitNumber(x: byte, k: nat)
    requires k < 8
    ensures ByteBit(x, k) == (x / Pow2(k) % 2 == 1)
  {
    ByteAsBits(x);
    TestDivides(AsBits(x), k);
  }

  lemma MaskNumber(k: nat)
    requires k < 8
    ensures OneBit(Mask(k)) && Mask(k) as int == Pow2(k)
  {
    MaskIs(k);
    Pow2Is(k);
  }

  lemma BitsAre(x: byte, k: nat, v: bv8, m: bv8)
    requires k < 8 && v == AsBits(x) && m == Mask(k)
    ensures v as int == x && OneBit(m) && m as int == Pow2(k)
  {
    MaskNumber(k);
    ByteAsBits(x);
  }

  lemma BitsDo(x: byte, k: nat, v: bv8, m: bv8)
    requires k < 8 && v == AsBits(x) && m == Mask(k)
    ensures ByteBit(x, k) == (v & m != 0) && SetByteBit(x, k) == (v | m) as int && ClearByteBit(x, k) == (v & !m) as int
  {}

  lemma BitsOf(x: byte, k: nat) returns (v: bv8, m: bv8)
    requires k < 8
    ensures v as int == x && OneBit(m) && m as int == Pow2(k) && ByteBit(x, k) == (v & m != 0)
    ensures SetByteBit(x, k) == (v | m) as int && ClearByteBit(x, k) == (v & !m) as int
  {
    v, m := AsBits(x), Mask(k);
    BitsAre(x, k, v, m);
    BitsDo(x, k, v, m);
  }

  lemma SetNumber(x: byte, k: nat)
    requires k < 8
    ensures SetByteBit(x, k) == x + if ByteBit(x, k) then 0 else Pow2(k)
    ensures ClearByteBit(x, k) == x - if ByteBit(x, k) then Pow2(k) else 0
  {
    var v, m := BitsOf(x, k);
    OrAdds(v, m);
    AndTakes(v, m);
  }

  /** Block b is marked in the free map: bit b % 8 of byte b / 8 of the map, which starts at bmapstart. */
  predicate Marked(l: Layout, blk: seq<Block>, b: nat)
    requires l.Ok() && |blk| == l.size && b < l.size
  {
    MapBlockIsMeta(l, b);
    blk[l.bmapstart + b / (8 * BSIZE)][b % (8 * BSIZE) / 8] / Pow2(b % 8) % 2 == 1
  }

  lemma MapBitIs(l: Layout, blk: seq<Block>, b: nat)
    requires l.Ok() && |blk| == l.size && b < l.size
    ensures MapBit(l, blk, b) == Marked(l, blk, b)
  {
    MapBlockIsMeta(l, b);
    var m := blk[l.MapBlock(b)];
    BitAt(m, BPB, b % BPB);
    BitNumber(m[b % BPB / 8], b % BPB % 8);
    assert b % BPB % 8 == b % 8;
  }

  /** What setting and clearing a bit does to each byte of a map block. */
  lemma MapBytes(b: Block, bi: nat, x: nat)
    requires bi < BPB && x < BSIZE
    ensures SetBit(b, bi)[x] == b[x] + if x == bi / 8 && b[x] / Pow2(bi % 8) % 2 == 0 then Pow2(bi % 8) else 0
    ensures ClearBit(b, bi)[x] == b[x] - if x == bi / 8 && b[x] / Pow2(bi % 8) % 2 == 1 then Pow2(bi % 8) else 0
  {
    BitNumber(b[bi / 8], bi % 8);
    SetNumber(b[bi / 8], bi % 8);
  }

  /** balloc's writes: block b is marked and all zero, no other mark and no other block changes. */
  lemma AllocatedBytes(l: Layout, blk: seq<Block>, b: nat, x: nat)
    requires l.Ok() && |blk| == l.size && l.datastart <= b < l.size && x < l.size
    ensures var r := Allocated(l, blk, b);
            && (Marked(l, r, x) <==> Marked(l, blk, x) || x == b)
            && (forall k | 0 <= k < BSIZE :: r[b][k] == 0)
            && (x != b && !(l.bmapstart <= x < l.datastart) ==> r[x] == blk[x])
  {
    MapBlockIsMeta(l, b);
    MapBlockIsMeta(l, x);
    var m := blk[l.MapBlock(b) := SetBit(blk[l.MapBlock(b)], b % BPB)];
    SetMapBit(l, blk, b, x);
    MapBitIs(l, blk, x);
    MapBitIs(l, m, x);
  }

  // ----- Inodes and files

  /** The block of the inode table that inode i is in, and where in it. */
  function TableBlock(l: Layout, i: nat): nat { l.inodestart + i / 8 }

  function TableByte(i: nat): nat { i % 8 * 64 }

  /** struct dinode at byte `at` of b: four shorts, the size, thirteen block numbers. */
  predicate InodeAt(b: Block, at: nat, ino: Inode)
    requires at + 64 <= BSIZE && Shaped(ino)
  {
    && ino.typ == U16(b, at) && ino.major == U16(b, at + 2) && ino.minor == U16(b, at + 4) && ino.nlink == U16(b, at + 6)
    && ino.size == U32(b, at + 8)
    && forall k | 0 <= k <= NDIRECT :: ino.addrs[k] == U32(b, at + 12 + 4 * k)
  }

  lemma HalfWords(b: Block, at: nat)
    requires at + 4 <= BSIZE
    ensures U32(b, at) % 0x1_0000 == U16(b, at) && U32(b, at) / 0x1_0000 == U16(b, at + 2)
  {}

  lemma GetInodeBytes(b: Block, slot: nat)
    requires slot < IPB
    ensures InodeAt(b, slot * 64, GetInode(b, slot))
  {
    var ws, at := Words(b, INODE_WORDS * slot, INODE_WORDS), slot * 64;
    forall j: nat | j < INODE_WORDS
      ensures ws[j] == U32(b, at + 4 * j)
    {
      WordsAt(b, INODE_WORDS * slot, INODE_WORDS, j);
      WordBytes(b, INODE_WORDS * slot + j);
    }
    HalfWords(b, at);
    HalfWords(b, at + 4);
  }

  /** ilock reads inode i from these bytes. */
  lemma InodeBytes(l: Layout, blk: seq<Block>, i: nat)
    requires l.Ok() && |blk| == l.size && i < l.ninodes
    ensures TableBlock(l, i) < l.bmapstart && InodeAt(blk[TableBlock(l, i)], TableByte(i), DiskInode(l, blk, i))
  {
    InodeBlockIsMeta(l, i);
    GetInodeBytes(blk[l.InodeBlock(i)], i % IPB);
  }

  lemma {:induction false} PutWordsBytes(b: Block, at: nat, ws: seq<word>, x: nat)
    requires at + |ws| <= WORDS && x < BSIZE && !(4 * at <= x < 4 * (at + |ws|))
    ensures PutWords(b, at, ws)[x] == b[x]
  {
    if ws != [] {
      var n := |ws| - 1;
      PutWordsBytes(b, at, ws[..n], x);
      PutWordBytes(PutWords(b, at, ws[..n]), at + n, ws[n], x);
    }
  }

  /** iupdate writes those 64 bytes and no others. */
  lemma PutInodeBytes(b: Block, slot: nat, ino: Inode, x: nat)
    requires slot < IPB && Shaped(ino) && x < BSIZE
    ensures InodeAt(PutInode(b, slot, ino), slot * 64, ino)
    ensures x / 64 != slot ==> PutInode(b, slot, ino)[x] == b[x]
  {
    InodeRoundTrip(b, slot, ino);
    GetInodeBytes(PutInode(b, slot, ino), slot);
    if x / 64 != slot {
      PutWordsBytes(b, INODE_WORDS * slot, Encode(ino), x);
    }
  }

  /** The number of block n of file i: one of twelve in the inode, the others in the block that the
      thirteenth names. */
  function BlockNumber(l: Layout, blk: seq<Block>, i: nat, n: nat): nat
    requires l.Ok() && |blk| == l.size && i < l.ninodes && n < MAXFILE
  {
    InodeBlockIsMeta(l, i);
    var b, at := blk[TableBlock(l, i)], TableByte(i) + 12;
    if n < 12 then U32(b, at + 4 * n)
    else
      var ind := U32(b, at + 48);
      if ind == 0 || ind >= |blk| then 0 else U32(blk[ind], 4 * (n - 12))
  }

  lemma DataBlockIs(l: Layout, fs: Fs, i: nat, n: nat)
    requires Sizes(l, fs) && i < l.ninodes && n < MAXFILE
    ensures var a := fs.ino[i].addrs;
            DataBlock(l, fs, i, n) ==
            if n < 12 then a[n] else if a[12] == 0 || a[12] >= l.size then 0 else U32(fs.blk[a[12]], 4 * (n - 12))
  {
    var ind := fs.ino[i].addrs[12];
    if n >= 12 && 0 < ind < l.size {
      WordBytes(fs.blk[ind], n - 12);
    }
  }

  lemma NumberIs(l: Layout, fs: Fs, i: nat, n: nat)
    requires OnDisk(l, fs, -1) && i < l.ninodes && n < MAXFILE
    ensures DataBlock(l, fs, i, n) == BlockNumber(l, fs.blk, i, n)
  {
    InodeBytes(l, fs.blk, i);
    DataBlockIs(l, fs, i, n);
  }

  /** What a file is, read off the disk byte by byte. */
  lemma FileOnDisk(l: Layout, fs: Fs, i: nat, x: nat)
    requires OnDisk(l, fs, -1) && i < l.ninodes && NoHoles(l, fs, i) && x < fs.ino[i].size
    ensures |Contents(l, fs, i)| == U32(fs.blk[TableBlock(l, i)], TableByte(i) + 8)
    ensures var b := BlockNumber(l, fs.blk, i, x / BSIZE);
            b != 0 && (b < l.size ==> Contents(l, fs, i)[x] == fs.blk[b][x % BSIZE])
  {
    InodeBytes(l, fs.blk, i);
    NumberIs(l, fs, i, x / BSIZE);
    assert DataBlock(l, fs, i, x / BSIZE) != 0;
  }

  // ----- The log

  /** The transaction in the log: the count and the home blocks in its first block, their contents in the
      blocks behind it. */
  lemma LogOnDisk(g: Geometry, d: Disk, i: nat)
    requires HeaderOk(g, d) && i < |LogBatch(g, d)|
    ensures |LogBatch(g, d)| == U32(d[g.start], 0)
    ensures 4 + 4 * i + 4 <= BSIZE && LogBatch(g, d)[i] == Entry(U32(d[g.start], 4 + 4 * i), d[g.start + 1 + i])
  {
    WordBytes(d[g.start], 0);
    WordBytes(d[g.start], i + 1);
  }

  /** write_head's block. */
  lemma HeaderBytes(b: Block, es: seq<word>, i: nat)
    requires |es| <= LOGSIZE && i < |es|
    ensures U32(HeaderBlock(b, es), 0) == |es| && 4 + 4 * i + 4 <= BSIZE && U32(HeaderBlock(b, es), 4 + 4 * i) == es[i]
  {
    WordBytes(HeaderBlock(b, es), 0);
    WordBytes(HeaderBlock(b, es), i + 1);
  }
}
