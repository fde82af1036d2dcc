/** How the free map and the inode table are laid out inside blocks (fs.h). */
module FsCodec {
  import opened Blocks

  const NDIRECT := 12
  const NINDIRECT := 128   // BSIZE / sizeof(uint)
  const MAXFILE := 140     // NDIRECT + NINDIRECT
  const IPB := 8           // inodes per block
  const INODE_WORDS := 16  // sizeof(struct dinode) / sizeof(uint)

  // ----- The free map

  /** 1 << k as a byte mask. */
  function Mask(k: nat): bv8
    requires k < 8
  {
    (1 as bv8) << k
  }

  /** A byte as eight bits, and back. */
  function AsBits(x: byte): bv8 { x as bv8 }

  function AsByte(v: bv8): (x: byte)
    ensures AsBits(x) == v
  {
    ByteRoundTrip(v);
    v as int
  }

  predicate ByteBit(x: byte, k: nat)
    requires k < 8
  {
    AsBits(x) & Mask(k) != 0
  }

  function SetByteBit(x: byte, k: nat): byte
    requires k < 8
  {
    AsByte(AsBits(x) | Mask(k))
  }

  function ClearByteBit(x: byte, k: nat): byte
    requires k < 8
  {
    AsByte(AsBits(x) & !Mask(k))
  }

  lemma MaskOps(x: bv8, j: nat, k: nat)
    requires j < 8 && k < 8
    ensures (x | Mask(k)) & Mask(k) != 0
    ensures (x & !Mask(k)) & Mask(k) == 0
    ensures j != k ==> (x | Mask(k)) & Mask(j) == x & Mask(j)
    ensures j != k ==> (x & !Mask(k)) & Mask(j) == x & Mask(j)
  {}

  lemma MaskSets(x: bv8, k: nat, j: nat)
    requires j < 8 && k < 8
    ensures ((x | Mask(k)) & Mask(j) != 0) == (x & Mask(j) != 0 || j == k)
  {
    MaskOps(x, j, k);
  }

  lemma MaskClears(x: bv8, k: nat, j: nat)
    requires j < 8 && k < 8
    ensures ((x & !Mask(k)) & Mask(j) != 0) == (x & Mask(j) != 0 && j != k)
  {
    MaskOps(x, j, k);
  }

  lemma ByteRoundTrip(x: bv8)
    ensures 0 <= x as int < 256 && ((x as int) as bv8) == x
  {}

  lemma SetByteBitAt(x: byte, k: nat, j: nat)
    requires k < 8 && j < 8
    ensures ByteBit(SetByteBit(x, k), j) == (ByteBit(x, j) || j == k)
  {
    MaskSets(AsBits(x), k, j);
  }

  lemma ClearByteBitAt(x: byte, k: nat, j: nat)
    requires k < 8 && j < 8
    ensures ByteBit(ClearByteBit(x, k), j) == (ByteBit(x, j) && j != k)
  {
    MaskClears(AsBits(x), k, j);
  }

  /** The first n bits of a bitmap block, decoded. */
  function Bits(b: Block, n: nat): (r: seq<bool>)
    requires n <= BPB
    ensures |r| == n
  {
    if n == 0 then [] else Bits(b, n - 1) + [ByteBit(b[(n - 1) / 8], (n - 1) % 8)]
  }

  lemma {:induction false} BitAt(b: Block, n: nat, bi: nat)
    requires bi < n <= BPB
    ensures Bits(b, n)[bi] == ByteBit(b[bi / 8], bi % 8)
  {
    if bi < n - 1 {
      BitAt(b, n - 1, bi);
    }
  }

  /** bp->data[bi/8] |= m */
  function SetBit(b: Block, bi: nat): Block
    requires bi < BPB
  {
    b[bi / 8 := SetByteBit(b[bi / 8], bi % 8)]
  }

  /** bp->data[bi/8] &= ~m */
  function ClearBit(b: Block, bi: nat): Block
    requires bi < BPB
  {
    b[bi / 8 := ClearByteBit(b[bi / 8], bi % 8)]
  }

  lemma SetBitAt(b: Block, bi: nat)
    requires bi < BPB
    ensures Bits(SetBit(b, bi), BPB) == Bits(b, BPB)[bi := true]
  {
    var r, s := Bits(SetBit(b, bi), BPB), Bits(b, BPB);
    forall j | 0 <= j < BPB
      ensures r[j] == s[bi := true][j]
    {
      BitAt(SetBit(b, bi), BPB, j);
      BitAt(b, BPB, j);
      SetByteBitAt(b[bi / 8], bi % 8, j % 8);
      SameByte(bi, j);
    }
  }

  lemma ClearBitAt(b: Block, bi: nat)
    requires bi < BPB
    ensures Bits(ClearBit(b, bi), BPB) == Bits(b, BPB)[bi := false]
  {
    var r, s := Bits(ClearBit(b, bi), BPB), Bits(b, BPB);
    forall j | 0 <= j < BPB
      ensures r[j] == s[bi := false][j]
    {
      BitAt(ClearBit(b, bi), BPB, j);
      BitAt(b, BPB, j);
      ClearByteBitAt(b[bi / 8], bi % 8, j % 8);
      SameByte(bi, j);
    }
  }

  lemma SameByte(i: nat, j: nat)
    ensures i == j <==> i / 8 == j / 8 && i % 8 == j % 8
  {}

  // ----- Inodes

  type half = x: int | 0 <= x < 0x1_0000

  /** struct dinode. */
  datatype Inode = Inode(typ: half, major: half, minor: half, nlink: half, size: word, addrs: seq<word>)

  predicate Shaped(ino: Inode) { |ino.addrs| == NDIRECT + 1 }

  /** The inode as the 16 words it occupies: two pairs of shorts, the size, the addresses. */
  function Encode(ino: Inode): (ws: seq<word>)
    requires Shaped(ino)
    ensures |ws| == INODE_WORDS
  {
    [ino.typ + 0x1_0000 * ino.major, ino.minor + 0x1_0000 * ino.nlink, ino.size] + ino.addrs
  }

  function Decode(ws: seq<word>): (ino: Inode)
    requires |ws| == INODE_WORDS
    ensures Shaped(ino)
  {
    Inode(ws[0] % 0x1_0000, ws[0] / 0x1_0000, ws[1] % 0x1_0000, ws[1] / 0x1_0000, ws[2], ws[3..])
  }

  lemma DecodeEncode(ino: Inode)
    requires Shaped(ino)
    ensures Decode(Encode(ino)) == ino
  {
    assert Encode(ino)[3..] == ino.addrs;
  }

  /** The n words of b from index `at` on. */
  function Words(b: Block, at: nat, n: nat): (ws: seq<word>)
    requires at + n <= WORDS
    ensures |ws| == n
  {
    if n == 0 then [] else Words(b, at, n - 1) + [Word(b, at + n - 1)]
  }

  function PutWords(b: Block, at: nat, ws: seq<word>): (r: Block)
    requires at + |ws| <= WORDS
  {
    if ws == [] then b
    else
      var n := |ws| - 1;
      PutWord(PutWords(b, at, ws[..n]), at + n, ws[n])
  }

  lemma {:induction false} PutWordsAt(b: Block, at: nat, ws: seq<word>, j: nat)
    requires at + |ws| <= WORDS && j < WORDS
    ensures Word(PutWords(b, at, ws), j) == if at <= j < at + |ws| then ws[j - at] else Word(b, j)
  {
    if ws != [] {
      PutWordsAt(b, at, ws[..|ws| - 1], j);
    }
  }

  lemma {:induction false} WordsAt(b: Block, at: nat, n: nat, j: nat)
    requires at + n <= WORDS && j < n
    ensures Words(b, at, n)[j] == Word(b, at + j)
  {
    if j < n - 1 {
      WordsAt(b, at, n - 1, j);
    }
  }

  function GetInode(b: Block, slot: nat): (ino: Inode)
    requires slot < IPB
    ensures Shaped(ino)
  {
    Decode(Words(b, INODE_WORDS * slot, INODE_WORDS))
  }

  function PutInode(b: Block, slot: nat, ino: Inode): Block
    requires slot < IPB && Shaped(ino)
  {
    PutWords(b, INODE_WORDS * slot, Encode(ino))
  }

  /** iupdate then ilock: what was written comes back. */
  lemma InodeRoundTrip(b: Block, slot: nat, ino: Inode)
    requires slot < IPB && Shaped(ino)
    ensures GetInode(PutInode(b, slot, ino), slot) == ino
  {
    var r, at := PutInode(b, slot, ino), INODE_WORDS * slot;
    forall j: nat | j < INODE_WORDS
      ensures Words(r, at, INODE_WORDS)[j] == Encode(ino)[j]
    {
      WordsAt(r, at, INODE_WORDS, j);
      PutWordsAt(b, at, Encode(ino), at + j);
    }
    assert Words(r, at, INODE_WORDS) == Encode(ino);
    DecodeEncode(ino);
  }

  lemma {:induction false} WordsSame(r: Block, b: Block, at: nat, n: nat)
    requires at + n <= WORDS
    requires forall j: nat | at <= j < at + n :: Word(r, j) == Word(b, j)
    ensures Words(r, at, n) == Words(b, at, n)
  {
    if n > 0 {
      WordsSame(r, b, at, n - 1);
    }
  }

  /** iupdate leaves the other seven inodes of the block alone. */
  lemma InodeNeighbour(b: Block, slot: nat, ino: Inode, other: nat)
    requires slot < IPB && other < IPB && Shaped(ino) && other != slot
    ensures GetInode(PutInode(b, slot, ino), other) == GetInode(b, other)
  {
    var r, at := PutInode(b, slot, ino), INODE_WORDS * other;
    forall j: nat | at <= j < at + INODE_WORDS
      ensures Word(r, j) == Word(b, j)
    {
      PutWordsAt(b, INODE_WORDS * slot, Encode(ino), j);
    }
    WordsSame(r, b, at, INODE_WORDS);
  }
}
