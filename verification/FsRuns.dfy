/** Every interleaving of what the processes in fs.c do to the disk, one change of one block at a time: a
    process in balloc has marked a block that no pointer names yet, and a process in itrunc has freed blocks
    that its inode still names. */
module FsRuns {
  import opened Blocks
  import opened FsCodec
  import opened FsState

  /** Where a block is: nowhere, the file system's own, at pointer k of inode i, or with process p. */
  datatype Place = Spare | System | At(i: nat, k: nat) | With(p: nat)

  /** The block a process got from balloc for pointer k of inode i, until bmap stores its number. */
  datatype Hold = Nothing | Holding(i: nat, k: nat, b: nat, zeroed: bool)

  /** The disk as the log shows it with its free map decoded, the inodes in memory, who has locked each, how
      many turns of itrunc each has behind it, and what each process holds. */
  datatype Sys = Sys(blk: seq<Block>, used: seq<bool>, ino: seq<Inode>, lock: seq<int>, cut: seq<nat>, hold: seq<Hold>, own: seq<Place>)

  predicate Shape(l: Layout, s: Sys) {
    && l.Ok() && |s.blk| == |s.used| == |s.own| == l.size && |s.ino| == |s.lock| == |s.cut| == l.ninodes
    && forall i | 0 <= i < l.ninodes :: Shaped(s.ino[i])
  }

  function Pointer(l: Layout, s: Sys, i: nat, k: nat): word
    requires Shape(l, s) && i < l.ninodes && k < PTRS
  {
    PtrOf(s.blk, s.ino[i], k)
  }

  /** itrunc has not freed pointer k of inode i. */
  predicate Live(s: Sys, i: nat, k: nat)
    requires i < |s.cut|
  {
    s.cut[i] <= Turn(k)
  }

  // ----- The invariant

  predicate BlockFine(l: Layout, s: Sys, b: nat)
    requires Shape(l, s) && b < l.size
  {
    && s.used[b] == !s.own[b].Spare? == MapBit(l, s.blk, b)
    && (b < l.datastart <==> s.own[b].System?)
    && match s.own[b]
       case At(i, k) => i < l.ninodes && k < PTRS && Live(s, i, k) && Pointer(l, s, i, k) == b
       case With(p) => p < |s.hold| && s.hold[p].Holding? && s.hold[p].b == b
       case Spare => true
       case System => true
  }

  predicate PtrFine(l: Layout, s: Sys, i: nat, k: nat)
    requires Shape(l, s) && i < l.ninodes && k < PTRS
  {
    var b := Pointer(l, s, i, k);
    Live(s, i, k) && b != 0 ==> b < l.size && s.own[b] == At(i, k)
  }

  predicate HoldFine(l: Layout, s: Sys, p: nat)
    requires Shape(l, s) && p < |s.hold|
  {
    match s.hold[p]
    case Nothing => true
    case Holding(i, k, b, zeroed) =>
      && i < l.ninodes && k < PTRS && b < l.size && s.own[b] == With(p) && s.lock[i] == p && s.cut[i] == 0
      && s.ino[i].typ != 0 && Pointer(l, s, i, k) == 0 && (k > INDIRECT ==> s.ino[i].addrs[INDIRECT] != 0)
      && (zeroed ==> s.blk[b] == ZeroBlock())
  }

  /** An inode being emptied is locked, and a free inode names nothing. */
  predicate InodeFine(l: Layout, s: Sys, i: nat)
    requires Shape(l, s) && i < l.ninodes
  {
    && s.cut[i] <= PTRS && (s.cut[i] > 0 ==> s.lock[i] >= 0)
    && (s.ino[i].typ == 0 ==> forall k | 0 <= k <= INDIRECT :: s.ino[i].addrs[k] == 0)
  }

  ghost predicate Whole(l: Layout, s: Sys)
    requires Shape(l, s)
  {
    && (forall b: nat | b < l.size :: BlockFine(l, s, b))
    && (forall i: nat, k: nat | i < l.ninodes && k < PTRS :: PtrFine(l, s, i, k))
    && (forall p: nat | p < |s.hold| :: HoldFine(l, s, p))
    && (forall i: nat | i < l.ninodes :: InodeFine(l, s, i))
  }

  /** Every marked block is the file system's own, or at one live pointer, or with one process; every live
      pointer names such a block. */
  ghost predicate Inv(l: Layout, s: Sys) {
    Shape(l, s) && WholeBehind(l, s, 1)
  }

  ghost predicate WholeBehind(l: Layout, s: Sys, turns: nat)
    requires Shape(l, s)
  {
    if turns == 0 then Whole(l, s) else WholeBehind(l, s, turns - 1)
  }

  lemma InvIs(l: Layout, s: Sys)
    requires Shape(l, s)
    ensures Inv(l, s) == Whole(l, s)
  {
    assert WholeBehind(l, s, 1) == WholeBehind(l, s, 0);
  }

  lemma BlockHas(l: Layout, s: Sys, b: nat)
    requires Inv(l, s) && b < l.size
    ensures BlockFine(l, s, b)
  {
    InvIs(l, s);
  }

  lemma PtrHas(l: Layout, s: Sys, i: nat, k: nat)
    requires Inv(l, s) && i < l.ninodes && k < PTRS
    ensures PtrFine(l, s, i, k)
  {
    InvIs(l, s);
  }

  lemma HoldHas(l: Layout, s: Sys, p: nat)
    requires Inv(l, s) && p < |s.hold|
    ensures HoldFine(l, s, p)
  {
    InvIs(l, s);
  }

  lemma InodeHas(l: Layout, s: Sys, i: nat)
    requires Inv(l, s) && i < l.ninodes
    ensures InodeFine(l, s, i)
  {
    InvIs(l, s);
  }

  // ----- Steps

  /** balloc marks a block (Mark) and zeroes it (Zero), and bmap stores its number (Link); writei stores bytes
      (Put) and the size; iupdate writes the inode back; itrunc frees the block of one pointer (Unmark), clears a
      pointer of the inode (Wipe), and ends (Empty); ialloc and iput set the type. */
  datatype Step =
    | Lock(p: nat, i: nat)
    | Unlock(p: nat, i: nat)
    | Mark(p: nat, i: nat, k: nat, b: nat)
    | Zero(p: nat, i: nat)
    | Link(p: nat, i: nat, k: nat)
    | Put(p: nat, i: nat, n: nat, at: nat, bytes: seq<byte>)
    | Resize(p: nat, i: nat, size: word)
    | Retype(p: nat, i: nat, typ: half)
    | Update(p: nat, i: nat)
    | Unmark(p: nat, i: nat, k: nat)
    | Wipe(p: nat, i: nat, k: nat)
    | Empty(p: nat, i: nat)

  predicate NoPointers(ino: Inode)
    requires Shaped(ino)
  {
    forall k | 0 <= k <= INDIRECT :: ino.addrs[k] == 0
  }

  predicate Enabled(l: Layout, s: Sys, step: Step)
    requires Shape(l, s)
  {
    && step.p < |s.hold| && step.i < l.ninodes && (step.Lock? || s.lock[step.i] == step.p)
    && match step
       case Lock(p, i) => s.lock[i] < 0
       case Unlock(p, i) => s.cut[i] == 0 && !(s.hold[p].Holding? && s.hold[p].i == i)
       case Mark(p, i, k, b) =>
         && s.hold[p] == Nothing && s.cut[i] == 0 && s.ino[i].typ != 0 && k < PTRS && Pointer(l, s, i, k) == 0
         && (k > INDIRECT ==> s.ino[i].addrs[INDIRECT] != 0) && b < l.size && !s.used[b]
       case Zero(p, i) => s.hold[p].Holding? && s.hold[p].i == i
       case Link(p, i, k) => s.hold[p].Holding? && s.hold[p].i == i && s.hold[p].k == k && s.hold[p].zeroed
       case Put(p, i, n, at, bytes) =>
         s.cut[i] == 0 && n < MAXFILE && at + |bytes| <= BSIZE && Pointer(l, s, i, DataSlot(n)) != 0
       case Resize(p, i, _) => true
       case Retype(p, i, typ) => s.cut[i] == 0 && s.hold[p] == Nothing && (typ == 0 ==> NoPointers(s.ino[i]))
       case Update(p, i) => true
       case Unmark(p, i, k) => s.hold[p] == Nothing && k < PTRS && Turn(k) == s.cut[i]
       case Wipe(p, i, k) => k <= INDIRECT && Turn(k) < s.cut[i]
       case Empty(p, i) => s.cut[i] == PTRS && NoPointers(s.ino[i])
  }

  /** The map block with the bit of b set or cleared. */
  function Mapped(l: Layout, blk: seq<Block>, b: nat, on: bool): (r: seq<Block>)
    requires l.Ok() && |blk| == l.size && b < l.size
    ensures |r| == l.size && l.MapBlock(b) < l.datastart
  {
    MapBlockIsMeta(l, b);
    var m := l.MapBlock(b);
    blk[m := if on then SetBit(blk[m], b % BPB) else ClearBit(blk[m], b % BPB)]
  }

  /** The indirect block of an inode that is not being emptied. */
  lemma IndirectHas(l: Layout, s: Sys, i: nat)
    requires Inv(l, s) && i < l.ninodes && Live(s, i, INDIRECT)
    ensures var ind := s.ino[i].addrs[INDIRECT];
      ind < l.size && (ind != 0 ==> l.datastart <= ind && s.own[ind] == At(i, INDIRECT))
  {
    PtrHas(l, s, i, INDIRECT);
    if s.ino[i].addrs[INDIRECT] != 0 {
      BlockHas(l, s, s.ino[i].addrs[INDIRECT]);
    }
  }

  /** A live pointer does not move when neither its inode's addresses nor its indirect block change. */
  lemma PointerStays(l: Layout, s: Sys, t: Sys, j: nat, m: nat)
    requires Inv(l, s) && Shape(l, t) && j < l.ninodes && m < PTRS && Live(s, j, m)
    requires t.ino[j].addrs == s.ino[j].addrs
    requires var ind := s.ino[j].addrs[INDIRECT]; ind < l.size && s.own[ind] == At(j, INDIRECT) ==> t.blk[ind] == s.blk[ind]
    ensures Pointer(l, t, j, m) == Pointer(l, s, j, m)
  {
    if m > INDIRECT {
      IndirectHas(l, s, j);
    }
  }

  // ----- What the steps do

  function Marked(l: Layout, s: Sys, p: nat, i: nat, k: nat, b: nat): (t: Sys)
    requires Shape(l, s) && Enabled(l, s, Mark(p, i, k, b))
    ensures Shape(l, t)
  {
    s.(blk := Mapped(l, s.blk, b, true), used := s.used[b := true], hold := s.hold[p := Holding(i, k, b, false)], own := s.own[b := With(p)])
  }

  function Linked(l: Layout, s: Sys, p: nat, i: nat, k: nat): (t: Sys)
    requires Inv(l, s) && Enabled(l, s, Link(p, i, k))
    ensures Shape(l, t)
  {
    HoldHas(l, s, p);
    IndirectHas(l, s, i);
    var b: word := s.hold[p].b;
    var ind := s.ino[i].addrs[INDIRECT];
    s.(blk := if k <= INDIRECT then s.blk else s.blk[ind := PutWord(s.blk[ind], k - 13, b)],
       ino := if k <= INDIRECT then s.ino[i := s.ino[i].(addrs := s.ino[i].addrs[k := b])] else s.ino,
       hold := s.hold[p := Nothing], own := s.own[b := At(i, k)])
  }

  /** bfree of the block at pointer k, if there is one. */
  function Unmarked(l: Layout, s: Sys, i: nat, k: nat): (t: Sys)
    requires Inv(l, s) && i < l.ninodes && k < PTRS && Live(s, i, k)
    ensures Shape(l, t)
  {
    PtrHas(l, s, i, k);
    var b := Pointer(l, s, i, k);
    if b == 0 then s.(cut := s.cut[i := s.cut[i] + 1])
    else s.(blk := Mapped(l, s.blk, b, false), used := s.used[b := false], cut := s.cut[i := s.cut[i] + 1], own := s.own[b := Spare])
  }

  /** Block b now holds `data`. */
  function Stored(s: Sys, b: nat, data: Block): Sys
    requires b < |s.blk|
  {
    s.(blk := s.blk[b := data])
  }

  function WithInode(s: Sys, i: nat, ino: Inode): Sys
    requires i < |s.ino|
  {
    s.(ino := s.ino[i := ino])
  }

  function Do(l: Layout, s: Sys, step: Step): (t: Sys)
    requires Inv(l, s) && Enabled(l, s, step)
    ensures Shape(l, t) && |t.hold| == |s.hold|
  {
    match step
    case Lock(p, i) => s.(lock := s.lock[i := p])
    case Unlock(p, i) => s.(lock := s.lock[i := -1])
    case Mark(p, i, k, b) => Marked(l, s, p, i, k, b)
    case Zero(p, i) =>
      HoldHas(l, s, p);
      Stored(s, s.hold[p].b, ZeroBlock()).(hold := s.hold[p := s.hold[p].(zeroed := true)])
    case Link(p, i, k) => Linked(l, s, p, i, k)
    case Put(p, i, n, at, bytes) =>
      PtrHas(l, s, i, DataSlot(n));
      var b := Pointer(l, s, i, DataSlot(n));
      Stored(s, b, Splice(s.blk[b], at, bytes))
    case Resize(p, i, size) => WithInode(s, i, s.ino[i].(size := size))
    case Retype(p, i, typ) => WithInode(s, i, s.ino[i].(typ := typ))
    case Update(p, i) =>
      InodeBlockIsMeta(l, i);
      var b := l.InodeBlock(i);
      Stored(s, b, PutInode(s.blk[b], i % IPB, s.ino[i]))
    case Unmark(p, i, k) => Unmarked(l, s, i, k)
    case Wipe(p, i, k) => WithInode(s, i, s.ino[i].(addrs := s.ino[i].addrs[k := 0]))
    case Empty(p, i) => WithInode(s, i, s.ino[i].(size := 0)).(cut := s.cut[i := 0])
  }

  // ----- Steps that move no pointer and no mark

  /** At most block x changes, and it is neither of the map nor an indirect block; the inodes keep their
      addresses, and what is locked for a reason stays locked. */
  ghost predicate Mild(l: Layout, s: Sys, t: Sys, x: nat) {
    && Shape(l, s) && Shape(l, t) && t.used == s.used && t.own == s.own && t.cut == s.cut && |t.hold| == |s.hold|
    && (forall j | 0 <= j < l.ninodes :: t.ino[j].addrs == s.ino[j].addrs)
    && x < l.size && !(l.bmapstart <= x < l.datastart) && !(s.own[x].At? && s.own[x].k == INDIRECT)
    && (forall y | 0 <= y < l.size && y != x :: t.blk[y] == s.blk[y])
    && (forall p | 0 <= p < |s.hold| :: HoldSame(s.hold[p], t.hold[p]))
  }

  predicate HoldSame(a: Hold, b: Hold) {
    a.Holding? == b.Holding? && (a.Holding? ==> a.i == b.i && a.k == b.k && a.b == b.b)
  }

  lemma MildPointer(l: Layout, s: Sys, t: Sys, x: nat, j: nat, m: nat)
    requires Inv(l, s) && Mild(l, s, t, x) && j < l.ninodes && m < PTRS && Live(s, j, m)
    ensures Pointer(l, t, j, m) == Pointer(l, s, j, m)
  {
    PointerStays(l, s, t, j, m);
  }

  lemma MildBlock(l: Layout, s: Sys, t: Sys, x: nat, b: nat)
    requires Inv(l, s) && Mild(l, s, t, x) && b < l.size
    ensures BlockFine(l, t, b)
  {
    BlockHas(l, s, b);
    MapBlockIsMeta(l, b);
    if s.own[b].At? {
      MildPointer(l, s, t, x, s.own[b].i, s.own[b].k);
    } else if s.own[b].With? {
      assert HoldSame(s.hold[s.own[b].p], t.hold[s.own[b].p]);
    }
  }

  lemma MildPtr(l: Layout, s: Sys, t: Sys, x: nat, i: nat, k: nat)
    requires Inv(l, s) && Mild(l, s, t, x) && i < l.ninodes && k < PTRS
    ensures PtrFine(l, t, i, k)
  {
    PtrHas(l, s, i, k);
    if Live(s, i, k) {
      MildPointer(l, s, t, x, i, k);
    }
  }

  lemma MildKeepsInv(l: Layout, s: Sys, t: Sys, x: nat)
    requires Inv(l, s) && Mild(l, s, t, x)
    requires forall p: nat | p < |t.hold| :: HoldFine(l, t, p)
    requires forall i: nat | i < l.ninodes :: InodeFine(l, t, i)
    ensures Inv(l, t)
  {
    forall b: nat | b < l.size
      ensures BlockFine(l, t, b)
    {
      MildBlock(l, s, t, x, b);
    }
    forall i: nat, k: nat | i < l.ninodes && k < PTRS
      ensures PtrFine(l, t, i, k)
    {
      MildPtr(l, s, t, x, i, k);
    }
    InvIs(l, t);
  }

  lemma InodeStepHold(l: Layout, s: Sys, step: Step, q: nat)
    requires Inv(l, s) && Enabled(l, s, step) && (step.Lock? || step.Unlock? || step.Resize? || step.Retype?) && q < |s.hold|
    ensures HoldFine(l, Do(l, s, step), q)
  {
    HoldHas(l, s, q);
    if s.hold[q].Holding? {
      PointerStays(l, s, Do(l, s, step), s.hold[q].i, s.hold[q].k);
    }
  }

  /** Locks, sizes and types. */
  lemma InodeStepKeepsInv(l: Layout, s: Sys, step: Step)
    requires Inv(l, s) && Enabled(l, s, step) && (step.Lock? || step.Unlock? || step.Resize? || step.Retype?)
    ensures Inv(l, Do(l, s, step))
  {
    var t := Do(l, s, step);
    BlockHas(l, s, 0);
    forall p: nat | p < |t.hold|
      ensures HoldFine(l, t, p)
    {
      InodeStepHold(l, s, step, p);
    }
    forall i: nat | i < l.ninodes
      ensures InodeFine(l, t, i)
    {
      InodeHas(l, s, i);
    }
    MildKeepsInv(l, s, t, 0);
  }

  /** A block of bytes or of inodes. */
  lemma StoreKeepsInv(l: Layout, s: Sys, x: nat, data: Block)
    requires Inv(l, s) && x < l.size && !(l.bmapstart <= x < l.datastart) && !(s.own[x].At? && s.own[x].k == INDIRECT)
    requires s.own[x].With? ==> data == ZeroBlock()
    ensures Inv(l, Stored(s, x, data))
  {
    var t := Stored(s, x, data);
    forall p: nat | p < |t.hold|
      ensures HoldFine(l, t, p)
    {
      HoldHas(l, s, p);
      if s.hold[p].Holding? {
        MildPointer(l, s, t, x, s.hold[p].i, s.hold[p].k);
      }
    }
    forall i: nat | i < l.ninodes
      ensures InodeFine(l, t, i)
    {
      InodeHas(l, s, i);
    }
    MildKeepsInv(l, s, t, x);
  }

  lemma UpdateKeepsInv(l: Layout, s: Sys, p: nat, i: nat)
    requires Inv(l, s) && Enabled(l, s, Update(p, i))
    ensures Inv(l, Do(l, s, Update(p, i)))
  {
    InodeBlockIsMeta(l, i);
    var b := l.InodeBlock(i);
    BlockHas(l, s, b);
    StoreKeepsInv(l, s, b, PutInode(s.blk[b], i % IPB, s.ino[i]));
  }

  lemma ZeroKeepsInv(l: Layout, s: Sys, p: nat, i: nat)
    requires Inv(l, s) && Enabled(l, s, Zero(p, i))
    ensures Inv(l, Do(l, s, Zero(p, i)))
  {
    HoldHas(l, s, p);
    var x := s.hold[p].b;
    BlockHas(l, s, x);
    StoreKeepsInv(l, s, x, ZeroBlock());
    var u, t := Stored(s, x, ZeroBlock()), Do(l, s, Zero(p, i));
    forall q: nat | q < |t.hold|
      ensures HoldFine(l, t, q)
    {
      HoldHas(l, u, q);
    }
    forall j: nat | j < l.ninodes
      ensures InodeFine(l, t, j)
    {
      InodeHas(l, u, j);
    }
    MildKeepsInv(l, u, t, x);
  }

  // ----- balloc marks

  lemma MarkedPointer(l: Layout, s: Sys, p: nat, i: nat, k: nat, b: nat, j: nat, m: nat)
    requires Inv(l, s) && Enabled(l, s, Mark(p, i, k, b)) && j < l.ninodes && m < PTRS && Live(s, j, m)
    ensures Pointer(l, Marked(l, s, p, i, k, b), j, m) == Pointer(l, s, j, m)
  {
    BlockHas(l, s, l.MapBlock(b));
    MapBlockIsMeta(l, b);
    PointerStays(l, s, Marked(l, s, p, i, k, b), j, m);
  }

  lemma MarkedBlock(l: Layout, s: Sys, p: nat, i: nat, k: nat, b: nat, y: nat)
    requires Inv(l, s) && Enabled(l, s, Mark(p, i, k, b)) && y < l.size
    ensures BlockFine(l, Marked(l, s, p, i, k, b), y)
  {
    BlockHas(l, s, y);
    BlockHas(l, s, b);
    SetMapBit(l, s.blk, b, y);
    if s.own[y].At? {
      MarkedPointer(l, s, p, i, k, b, s.own[y].i, s.own[y].k);
    }
  }

  lemma MarkedHold(l: Layout, s: Sys, p: nat, i: nat, k: nat, b: nat, q: nat)
    requires Inv(l, s) && Enabled(l, s, Mark(p, i, k, b)) && q < |s.hold|
    ensures HoldFine(l, Marked(l, s, p, i, k, b), q)
  {
    HoldHas(l, s, q);
    MapBlockIsMeta(l, b);
    if q == p {
      MarkedPointer(l, s, p, i, k, b, i, k);
    } else if s.hold[q].Holding? {
      MarkedPointer(l, s, p, i, k, b, s.hold[q].i, s.hold[q].k);
      BlockHas(l, s, s.hold[q].b);
      BlockHas(l, s, b);
    }
  }

  lemma MarkKeepsInv(l: Layout, s: Sys, p: nat, i: nat, k: nat, b: nat)
    requires Inv(l, s) && Enabled(l, s, Mark(p, i, k, b))
    ensures Inv(l, Marked(l, s, p, i, k, b))
  {
    var t := Marked(l, s, p, i, k, b);
    forall y: nat | y < l.size
      ensures BlockFine(l, t, y)
    {
      MarkedBlock(l, s, p, i, k, b, y);
    }
    forall j: nat, m: nat | j < l.ninodes && m < PTRS
      ensures PtrFine(l, t, j, m)
    {
      PtrHas(l, s, j, m);
      BlockHas(l, s, b);
      if Live(s, j, m) {
        MarkedPointer(l, s, p, i, k, b, j, m);
      }
    }
    forall q: nat | q < |t.hold|
      ensures HoldFine(l, t, q)
    {
      MarkedHold(l, s, p, i, k, b, q);
    }
    forall j: nat | j < l.ninodes
      ensures InodeFine(l, t, j)
    {
      InodeHas(l, s, j);
    }
    InvIs(l, t);
  }

  // ----- bmap links

  lemma LinkedPointer(l: Layout, s: Sys, p: nat, i: nat, k: nat, j: nat, m: nat)
    requires Inv(l, s) && Enabled(l, s, Link(p, i, k)) && j < l.ninodes && m < PTRS && Live(s, j, m)
    ensures k < PTRS
    ensures Pointer(l, Linked(l, s, p, i, k), j, m) == if j == i && m == k then s.hold[p].b else Pointer(l, s, j, m)
  {
    HoldHas(l, s, p);
    var t, b := Linked(l, s, p, i, k), s.hold[p].b;
    IndirectHas(l, s, i);
    IndirectHas(l, s, j);
    if j != i {
      PointerStays(l, s, t, j, m);
    } else if k == INDIRECT && m > INDIRECT {
      ZeroWords(m - 13);
    }
  }

  lemma LinkedBlock(l: Layout, s: Sys, p: nat, i: nat, k: nat, y: nat)
    requires Inv(l, s) && Enabled(l, s, Link(p, i, k)) && y < l.size
    ensures BlockFine(l, Linked(l, s, p, i, k), y)
  {
    HoldHas(l, s, p);
    BlockHas(l, s, y);
    IndirectHas(l, s, i);
    MapBlockIsMeta(l, y);
    if y == s.hold[p].b {
      LinkedPointer(l, s, p, i, k, i, k);
    } else if s.own[y].At? {
      LinkedPointer(l, s, p, i, k, s.own[y].i, s.own[y].k);
    }
  }

  lemma LinkedHold(l: Layout, s: Sys, p: nat, i: nat, k: nat, q: nat)
    requires Inv(l, s) && Enabled(l, s, Link(p, i, k)) && q < |s.hold|
    ensures HoldFine(l, Linked(l, s, p, i, k), q)
  {
    HoldHas(l, s, p);
    HoldHas(l, s, q);
    IndirectHas(l, s, i);
    var t := Linked(l, s, p, i, k);
    if q != p && s.hold[q].Holding? {
      var j, x := s.hold[q].i, s.hold[q].b;
      assert j != i && t.ino[j] == s.ino[j];
      assert s.own[x] == With(q) && t.own[x] == s.own[x] && t.blk[x] == s.blk[x];
      LinkedPointer(l, s, p, i, k, j, s.hold[q].k);
    }
  }

  lemma LinkKeepsInv(l: Layout, s: Sys, p: nat, i: nat, k: nat)
    requires Inv(l, s) && Enabled(l, s, Link(p, i, k))
    ensures Inv(l, Linked(l, s, p, i, k))
  {
    var t := Linked(l, s, p, i, k);
    HoldHas(l, s, p);
    forall y: nat | y < l.size
      ensures BlockFine(l, t, y)
    {
      LinkedBlock(l, s, p, i, k, y);
    }
    forall j: nat, m: nat | j < l.ninodes && m < PTRS
      ensures PtrFine(l, t, j, m)
    {
      PtrHas(l, s, j, m);
      if Live(s, j, m) {
        LinkedPointer(l, s, p, i, k, j, m);
      }
    }
    forall q: nat | q < |t.hold|
      ensures HoldFine(l, t, q)
    {
      LinkedHold(l, s, p, i, k, q);
    }
    forall j: nat | j < l.ninodes
      ensures InodeFine(l, t, j)
    {
      InodeHas(l, s, j);
    }
    InvIs(l, t);
  }

  // ----- itrunc frees

  /** The block of a pointer that itrunc comes to is marked: bfree does not panic. */
  lemma BfreeNeverPanics(l: Layout, s: Sys, i: nat, k: nat)
    requires Inv(l, s) && i < l.ninodes && k < PTRS && Live(s, i, k) && Pointer(l, s, i, k) != 0
    ensures var b := Pointer(l, s, i, k); l.datastart <= b < l.size && s.used[b] && MapBit(l, s.blk, b)
  {
    PtrHas(l, s, i, k);
    BlockHas(l, s, Pointer(l, s, i, k));
  }

  lemma TurnsDiffer(k: nat, m: nat)
    requires k < PTRS && m < PTRS
    ensures Turn(k) == Turn(m) <==> k == m
  {}

  lemma UnmarkedPointer(l: Layout, s: Sys, i: nat, k: nat, j: nat, m: nat)
    requires Inv(l, s) && i < l.ninodes && k < PTRS && Live(s, i, k) && j < l.ninodes && m < PTRS && Live(s, j, m)
    ensures Pointer(l, Unmarked(l, s, i, k), j, m) == Pointer(l, s, j, m)
  {
    var b := Pointer(l, s, i, k);
    if b != 0 {
      BfreeNeverPanics(l, s, i, k);
      BlockHas(l, s, l.MapBlock(b));
      MapBlockIsMeta(l, b);
    }
    PointerStays(l, s, Unmarked(l, s, i, k), j, m);
  }

  lemma UnmarkedBlock(l: Layout, s: Sys, i: nat, k: nat, y: nat)
    requires Inv(l, s) && i < l.ninodes && k < PTRS && Turn(k) == s.cut[i] && y < l.size
    ensures BlockFine(l, Unmarked(l, s, i, k), y)
  {
    BlockHas(l, s, y);
    PtrHas(l, s, i, k);
    var b := Pointer(l, s, i, k);
    if b != 0 {
      BfreeNeverPanics(l, s, i, k);
      ClearMapBit(l, s.blk, b, y);
    }
    if y != b && s.own[y].At? {
      UnmarkedPointer(l, s, i, k, s.own[y].i, s.own[y].k);
      TurnsDiffer(s.own[y].k, k);
    }
  }

  lemma UnmarkKeepsInv(l: Layout, s: Sys, p: nat, i: nat, k: nat)
    requires Inv(l, s) && Enabled(l, s, Unmark(p, i, k))
    ensures Inv(l, Unmarked(l, s, i, k))
  {
    var t := Unmarked(l, s, i, k);
    PtrHas(l, s, i, k);
    forall y: nat | y < l.size
      ensures BlockFine(l, t, y)
    {
      UnmarkedBlock(l, s, i, k, y);
    }
    forall j: nat, m: nat | j < l.ninodes && m < PTRS
      ensures PtrFine(l, t, j, m)
    {
      PtrHas(l, s, j, m);
      if Live(t, j, m) {
        UnmarkedPointer(l, s, i, k, j, m);
      }
    }
    forall q: nat | q < |t.hold|
      ensures HoldFine(l, t, q)
    {
      HoldHas(l, s, q);
      if s.hold[q].Holding? {
        UnmarkedPointer(l, s, i, k, s.hold[q].i, s.hold[q].k);
        UnmarkedHeld(l, s, i, k, q);
      }
    }
    forall j: nat | j < l.ninodes
      ensures InodeFine(l, t, j)
    {
      InodeHas(l, s, j);
    }
    InvIs(l, t);
  }

  lemma UnmarkedHeld(l: Layout, s: Sys, i: nat, k: nat, q: nat)
    requires Inv(l, s) && i < l.ninodes && k < PTRS && Live(s, i, k) && q < |s.hold| && s.hold[q].Holding?
    ensures var b, t := s.hold[q].b, Unmarked(l, s, i, k); b < l.size && t.own[b] == s.own[b] && t.blk[b] == s.blk[b]
  {
    HoldHas(l, s, q);
    PtrHas(l, s, i, k);
    BlockHas(l, s, s.hold[q].b);
  }

  // ----- itrunc clears a pointer it has freed, and ends

  /** The addresses of inode i change, but no live pointer does. */
  lemma InodeKeepsInv(l: Layout, s: Sys, t: Sys, i: nat)
    requires Inv(l, s) && Shape(l, t) && i < l.ninodes && s.cut[i] > 0
    requires t == s.(ino := t.ino, cut := t.cut) && InodeFine(l, t, i)
    requires forall j | 0 <= j < l.ninodes && j != i :: t.ino[j] == s.ino[j] && t.cut[j] == s.cut[j]
    requires forall m: nat | m < PTRS && Live(s, i, m) :: Live(t, i, m) && Pointer(l, t, i, m) == Pointer(l, s, i, m)
    requires forall m: nat | m < PTRS && Live(t, i, m) && !Live(s, i, m) :: Pointer(l, t, i, m) == 0
    ensures Inv(l, t)
  {
    forall y: nat | y < l.size
      ensures BlockFine(l, t, y)
    {
      BlockHas(l, s, y);
      if s.own[y].At? && s.own[y].i != i {
        PointerStays(l, s, t, s.own[y].i, s.own[y].k);
      }
    }
    forall j: nat, m: nat | j < l.ninodes && m < PTRS
      ensures PtrFine(l, t, j, m)
    {
      PtrHas(l, s, j, m);
      if Live(s, j, m) && j != i {
        PointerStays(l, s, t, j, m);
      }
    }
    forall q: nat | q < |t.hold|
      ensures HoldFine(l, t, q)
    {
      HoldHas(l, s, q);
      if s.hold[q].Holding? {
        PointerStays(l, s, t, s.hold[q].i, s.hold[q].k);
      }
    }
    forall j: nat | j < l.ninodes
      ensures InodeFine(l, t, j)
    {
      InodeHas(l, s, j);
    }
    InvIs(l, t);
  }

  lemma WipeKeepsInv(l: Layout, s: Sys, p: nat, i: nat, k: nat)
    requires Inv(l, s) && Enabled(l, s, Wipe(p, i, k))
    ensures Inv(l, Do(l, s, Wipe(p, i, k)))
  {
    InodeHas(l, s, i);
    InodeKeepsInv(l, s, Do(l, s, Wipe(p, i, k)), i);
  }

  lemma EmptyKeepsInv(l: Layout, s: Sys, p: nat, i: nat)
    requires Inv(l, s) && Enabled(l, s, Empty(p, i))
    ensures Inv(l, Do(l, s, Empty(p, i)))
  {
    InodeHas(l, s, i);
    InodeKeepsInv(l, s, Do(l, s, Empty(p, i)), i);
  }

  // ----- All of them

  lemma StepKeepsInv(l: Layout, s: Sys, step: Step)
    requires Inv(l, s) && Enabled(l, s, step)
    ensures Inv(l, Do(l, s, step))
  {
    match step
    case Mark(p, i, k, b) => MarkKeepsInv(l, s, p, i, k, b);
    case Zero(p, i) => ZeroKeepsInv(l, s, p, i);
    case Link(p, i, k) => LinkKeepsInv(l, s, p, i, k);
    case Put(p, i, n, at, bytes) =>
      var b := Pointer(l, s, i, DataSlot(n));
      PtrHas(l, s, i, DataSlot(n));
      BlockHas(l, s, b);
      StoreKeepsInv(l, s, b, Splice(s.blk[b], at, bytes));
    case Update(p, i) => UpdateKeepsInv(l, s, p, i);
    case Unmark(p, i, k) => UnmarkKeepsInv(l, s, p, i, k);
    case Wipe(p, i, k) => WipeKeepsInv(l, s, p, i, k);
    case Empty(p, i) => EmptyKeepsInv(l, s, p, i);
    case Lock(p, i) => InodeStepKeepsInv(l, s, step);
    case Unlock(p, i) => InodeStepKeepsInv(l, s, step);
    case Resize(p, i, _) => InodeStepKeepsInv(l, s, step);
    case Retype(p, i, _) => InodeStepKeepsInv(l, s, step);
  }

  ghost predicate Reaches(l: Layout, s: Sys, run: seq<Step>, t: Sys)
    decreases |run|
  {
    if run == [] then s == t
    else Inv(l, s) && Enabled(l, s, run[0]) && Reaches(l, Do(l, s, run[0]), run[1..], t)
  }

  /** Over every interleaving of any number of processes, at every single change: each marked block is in
      one place. */
  lemma {:induction false} RunKeepsInv(l: Layout, s: Sys, run: seq<Step>, t: Sys)
    requires Inv(l, s) && Reaches(l, s, run, t)
    ensures Inv(l, t) && |t.hold| == |s.hold|
    decreases |run|
  {
    if run != [] {
      StepKeepsInv(l, s, run[0]);
      RunKeepsInv(l, Do(l, s, run[0]), run[1..], t);
    }
  }

  /** What that means: no two live pointers name one block, none names a block some process holds, every
      marked data block has its one live pointer or its one holder, and a block that balloc may take has
      neither. */
  lemma OneHome(l: Layout, s: Sys, i: nat, k: nat, j: nat, m: nat, p: nat, q: nat, b: nat)
    requires Inv(l, s) && i < l.ninodes && j < l.ninodes && k < PTRS && m < PTRS && p < |s.hold| && q < |s.hold| && b < l.size
    ensures Live(s, i, k) && Live(s, j, m) && Pointer(l, s, i, k) == Pointer(l, s, j, m) != 0 ==> i == j && k == m
    ensures Live(s, i, k) && s.hold[p].Holding? && Pointer(l, s, i, k) != 0 ==> Pointer(l, s, i, k) != s.hold[p].b
    ensures s.hold[p].Holding? && s.hold[q].Holding? && s.hold[p].b == s.hold[q].b ==> p == q
    ensures b >= l.datastart && s.used[b] ==> Named(l, s, b) || Held(s, b)
    ensures !s.used[b] ==> !Named(l, s, b) && !Held(s, b)
  {
    PtrHas(l, s, i, k);
    PtrHas(l, s, j, m);
    HoldHas(l, s, p);
    HoldHas(l, s, q);
    BlockHas(l, s, b);
    if b >= l.datastart && s.used[b] && s.own[b].At? {
      assert PointsAt(l, s, s.own[b].i, s.own[b].k, b);
    }
    if !s.used[b] {
      forall x: nat, y: nat | x < l.ninodes && y < PTRS
        ensures !PointsAt(l, s, x, y, b)
      {
        PtrHas(l, s, x, y);
        BlockHas(l, s, 0);
      }
      forall x: nat | x < |s.hold|
        ensures !(s.hold[x].Holding? && s.hold[x].b == b)
      {
        HoldHas(l, s, x);
      }
    }
  }

  predicate PointsAt(l: Layout, s: Sys, i: nat, k: nat, b: nat)
    requires Shape(l, s)
  {
    i < l.ninodes && k < PTRS && Live(s, i, k) && Pointer(l, s, i, k) == b != 0
  }

  ghost predicate Named(l: Layout, s: Sys, b: nat)
    requires Shape(l, s)
  {
    exists i: nat, k: nat :: PointsAt(l, s, i, k, b)
  }

  ghost predicate Held(s: Sys, b: nat) {
    exists p: nat :: p < |s.hold| && s.hold[p].Holding? && s.hold[p].b == b
  }

  // ----- Files

  /** Block n of a file: not there, or its bytes. */
  datatype Cell = Hole | Data(b: Block)

  /** Block n of file j. */
  function CellAt(l: Layout, s: Sys, j: nat, n: nat): Cell
    requires Shape(l, s) && j < l.ninodes && n < MAXFILE
  {
    var b := Pointer(l, s, j, DataSlot(n));
    if Live(s, j, DataSlot(n)) && 0 < b < l.size then Data(s.blk[b]) else Hole
  }

  /** What a step makes of block n of file j, seen from that file alone: a step on another inode nothing. */
  function CellStep(c: Cell, step: Step, j: nat, n: nat): Cell {
    if step.i != j then c
    else
      match step
      case Link(_, _, k) => if k == DataSlot(n) then Data(ZeroBlock()) else c
      case Put(_, _, m, at, bytes) => if m == n && c.Data? && at + |bytes| <= BSIZE then Data(Splice(c.b, at, bytes)) else c
      case Unmark(_, _, k) => if k == DataSlot(n) then Hole else c
      case _ => c
  }

  /** A live pointer that stays, to a block that stays. */
  lemma SameCell(l: Layout, s: Sys, t: Sys, j: nat, n: nat)
    requires Inv(l, s) && Shape(l, t) && j < l.ninodes && n < MAXFILE
    requires Live(t, j, DataSlot(n)) == Live(s, j, DataSlot(n))
    requires Live(s, j, DataSlot(n)) ==>
      var b := Pointer(l, s, j, DataSlot(n)); Pointer(l, t, j, DataSlot(n)) == b && (0 < b < l.size ==> t.blk[b] == s.blk[b])
    ensures CellAt(l, t, j, n) == CellAt(l, s, j, n)
  {}

  /** The block of a cell belongs to it. */
  lemma CellOwner(l: Layout, s: Sys, j: nat, n: nat)
    requires Inv(l, s) && j < l.ninodes && n < MAXFILE && Live(s, j, DataSlot(n)) && Pointer(l, s, j, DataSlot(n)) != 0
    ensures var b := Pointer(l, s, j, DataSlot(n)); l.datastart <= b < l.size && s.own[b] == At(j, DataSlot(n))
  {
    PtrHas(l, s, j, DataSlot(n));
    BlockHas(l, s, Pointer(l, s, j, DataSlot(n)));
  }

  lemma MildCell(l: Layout, s: Sys, t: Sys, x: nat, j: nat, n: nat)
    requires Inv(l, s) && Mild(l, s, t, x) && j < l.ninodes && n < MAXFILE && s.own[x] != At(j, DataSlot(n))
    ensures CellAt(l, t, j, n) == CellAt(l, s, j, n)
  {
    if Live(s, j, DataSlot(n)) {
      MildPointer(l, s, t, x, j, DataSlot(n));
      if Pointer(l, s, j, DataSlot(n)) != 0 {
        CellOwner(l, s, j, n);
      }
    }
    SameCell(l, s, t, j, n);
  }

  lemma PutCell(l: Layout, s: Sys, p: nat, i: nat, m: nat, at: nat, bytes: seq<byte>, j: nat, n: nat)
    requires Inv(l, s) && Enabled(l, s, Put(p, i, m, at, bytes)) && j < l.ninodes && n < MAXFILE
    ensures CellAt(l, Do(l, s, Put(p, i, m, at, bytes)), j, n) == CellStep(CellAt(l, s, j, n), Put(p, i, m, at, bytes), j, n)
  {
    CellOwner(l, s, i, m);
    var b, t := Pointer(l, s, i, DataSlot(m)), Do(l, s, Put(p, i, m, at, bytes));
    if j == i && n == m {
      MildPointer(l, s, t, b, j, DataSlot(n));
    } else {
      MildCell(l, s, t, b, j, n);
    }
  }

  lemma MarkCell(l: Layout, s: Sys, p: nat, i: nat, k: nat, b: nat, j: nat, n: nat)
    requires Inv(l, s) && Enabled(l, s, Mark(p, i, k, b)) && j < l.ninodes && n < MAXFILE
    ensures CellAt(l, Marked(l, s, p, i, k, b), j, n) == CellAt(l, s, j, n)
  {
    MapBlockIsMeta(l, b);
    if Live(s, j, DataSlot(n)) {
      MarkedPointer(l, s, p, i, k, b, j, DataSlot(n));
      if Pointer(l, s, j, DataSlot(n)) != 0 {
        CellOwner(l, s, j, n);
      }
    }
    SameCell(l, s, Marked(l, s, p, i, k, b), j, n);
  }

  lemma LinkCell(l: Layout, s: Sys, p: nat, i: nat, k: nat, j: nat, n: nat)
    requires Inv(l, s) && Enabled(l, s, Link(p, i, k)) && j < l.ninodes && n < MAXFILE
    ensures CellAt(l, Linked(l, s, p, i, k), j, n) == CellStep(CellAt(l, s, j, n), Link(p, i, k), j, n)
  {
    HoldHas(l, s, p);
    IndirectHas(l, s, i);
    BlockHas(l, s, s.hold[p].b);
    var t := Linked(l, s, p, i, k);
    if Live(s, j, DataSlot(n)) {
      LinkedPointer(l, s, p, i, k, j, DataSlot(n));
      if Pointer(l, s, j, DataSlot(n)) != 0 {
        CellOwner(l, s, j, n);
      }
    }
    if !(j == i && k == DataSlot(n)) {
      SameCell(l, s, t, j, n);
    }
  }

  lemma UnmarkCell(l: Layout, s: Sys, p: nat, i: nat, k: nat, j: nat, n: nat)
    requires Inv(l, s) && Enabled(l, s, Unmark(p, i, k)) && j < l.ninodes && n < MAXFILE
    ensures CellAt(l, Unmarked(l, s, i, k), j, n) == CellStep(CellAt(l, s, j, n), Unmark(p, i, k), j, n)
  {
    var t := Unmarked(l, s, i, k);
    if !(j == i && k == DataSlot(n)) {
      TurnsDiffer(k, DataSlot(n));
      if Live(s, j, DataSlot(n)) {
        UnmarkedPointer(l, s, i, k, j, DataSlot(n));
        if Pointer(l, s, j, DataSlot(n)) != 0 {
          CellOwner(l, s, j, n);
        }
        PtrHas(l, s, i, k);
      }
      SameCell(l, s, t, j, n);
    }
  }

  /** A file is what its own steps make of it: a step of any process changes block n of file j exactly as
      CellStep says. */
  lemma StepOnFile(l: Layout, s: Sys, step: Step, j: nat, n: nat)
    requires Inv(l, s) && Enabled(l, s, step) && j < l.ninodes && n < MAXFILE
    ensures CellAt(l, Do(l, s, step), j, n) == CellStep(CellAt(l, s, j, n), step, j, n)
  {
    match step
    case Mark(p, i, k, b) => MarkCell(l, s, p, i, k, b, j, n);
    case Link(p, i, k) => LinkCell(l, s, p, i, k, j, n);
    case Put(p, i, m, at, bytes) => PutCell(l, s, p, i, m, at, bytes, j, n);
    case Unmark(p, i, k) => UnmarkCell(l, s, p, i, k, j, n);
    case Zero(p, i) => ZeroCell(l, s, p, i, j, n);
    case Update(p, i) => UpdateCell(l, s, p, i, j, n);
    case Wipe(p, i, k) => WipeCell(l, s, p, i, k, j, n);
    case Empty(p, i) => EmptyCell(l, s, p, i, j, n);
    case Lock(p, i) => MildStepCell(l, s, step, j, n);
    case Unlock(p, i) => MildStepCell(l, s, step, j, n);
    case Resize(p, i, _) => MildStepCell(l, s, step, j, n);
    case Retype(p, i, _) => MildStepCell(l, s, step, j, n);
  }

  lemma ZeroCell(l: Layout, s: Sys, p: nat, i: nat, j: nat, n: nat)
    requires Inv(l, s) && Enabled(l, s, Zero(p, i)) && j < l.ninodes && n < MAXFILE
    ensures CellAt(l, Do(l, s, Zero(p, i)), j, n) == CellAt(l, s, j, n)
  {
    HoldHas(l, s, p);
    BlockHas(l, s, s.hold[p].b);
    MildCell(l, s, Do(l, s, Zero(p, i)), s.hold[p].b, j, n);
  }

  lemma UpdateCell(l: Layout, s: Sys, p: nat, i: nat, j: nat, n: nat)
    requires Inv(l, s) && Enabled(l, s, Update(p, i)) && j < l.ninodes && n < MAXFILE
    ensures CellAt(l, Do(l, s, Update(p, i)), j, n) == CellAt(l, s, j, n)
  {
    InodeBlockIsMeta(l, i);
    BlockHas(l, s, l.InodeBlock(i));
    MildCell(l, s, Do(l, s, Update(p, i)), l.InodeBlock(i), j, n);
  }

  lemma MildStepCell(l: Layout, s: Sys, step: Step, j: nat, n: nat)
    requires Inv(l, s) && Enabled(l, s, step) && (step.Lock? || step.Unlock? || step.Resize? || step.Retype?)
    requires j < l.ninodes && n < MAXFILE
    ensures CellAt(l, Do(l, s, step), j, n) == CellAt(l, s, j, n)
  {
    BlockHas(l, s, 0);
    MildCell(l, s, Do(l, s, step), 0, j, n);
  }

  lemma WipeCell(l: Layout, s: Sys, p: nat, i: nat, k: nat, j: nat, n: nat)
    requires Inv(l, s) && Enabled(l, s, Wipe(p, i, k)) && j < l.ninodes && n < MAXFILE
    ensures CellAt(l, Do(l, s, Wipe(p, i, k)), j, n) == CellAt(l, s, j, n)
  {
    InodeHas(l, s, i);
    var t := Do(l, s, Wipe(p, i, k));
    if j != i && Live(s, j, DataSlot(n)) {
      PointerStays(l, s, t, j, DataSlot(n));
    }
    SameCell(l, s, t, j, n);
  }

  lemma EmptyCell(l: Layout, s: Sys, p: nat, i: nat, j: nat, n: nat)
    requires Inv(l, s) && Enabled(l, s, Empty(p, i)) && j < l.ninodes && n < MAXFILE
    ensures CellAt(l, Do(l, s, Empty(p, i)), j, n) == CellAt(l, s, j, n)
  {
    var t := Do(l, s, Empty(p, i));
    if j != i {
      if Live(s, j, DataSlot(n)) {
        PointerStays(l, s, t, j, DataSlot(n));
      }
      SameCell(l, s, t, j, n);
    }
  }

  /** The steps on inode j. */
  function OwnSteps(run: seq<Step>, j: nat): seq<Step>
    decreases |run|
  {
    if run == [] then [] else (if run[0].i == j then [run[0]] else []) + OwnSteps(run[1..], j)
  }

  function CellAfter(c: Cell, run: seq<Step>, j: nat, n: nat): Cell
    decreases |run|
  {
    if run == [] then c else CellAfter(CellStep(c, run[0], j, n), run[1..], j, n)
  }

  function SizeStep(size: word, step: Step, j: nat): word {
    if step.i != j then size
    else
      match step
      case Resize(_, _, n) => n
      case Empty(_, _) => 0
      case _ => size
  }

  function SizeAfter(size: word, run: seq<Step>, j: nat): word
    decreases |run|
  {
    if run == [] then size else SizeAfter(SizeStep(size, run[0], j), run[1..], j)
  }

  lemma {:induction false} OwnStepsDecide(c: Cell, size: word, run: seq<Step>, j: nat, n: nat)
    ensures CellAfter(c, run, j, n) == CellAfter(c, OwnSteps(run, j), j, n)
    ensures SizeAfter(size, run, j) == SizeAfter(size, OwnSteps(run, j), j)
    decreases |run|
  {
    if run != [] {
      var rest := OwnSteps(run[1..], j);
      OwnStepsDecide(CellStep(c, run[0], j, n), SizeStep(size, run[0], j), run[1..], j, n);
      if run[0].i == j {
        assert ([run[0]] + rest)[1..] == rest;
      } else {
        assert [] + rest == rest;
      }
    }
  }

  /** Whatever the processes do to the other files in between: at the end of any run, every block of file j
      and its size are what its own steps, in their order, make of them. */
  lemma {:induction false} FileFollowsItsSteps(l: Layout, s: Sys, run: seq<Step>, t: Sys, j: nat, n: nat)
    requires Inv(l, s) && Reaches(l, s, run, t) && j < l.ninodes && n < MAXFILE
    ensures Shape(l, t) && CellAt(l, t, j, n) == CellAfter(CellAt(l, s, j, n), OwnSteps(run, j), j, n)
    ensures t.ino[j].size == SizeAfter(s.ino[j].size, OwnSteps(run, j), j)
  {
    FileFollows(l, s, run, t, j, n);
    OwnStepsDecide(CellAt(l, s, j, n), s.ino[j].size, run, j, n);
  }

  lemma {:induction false} FileFollows(l: Layout, s: Sys, run: seq<Step>, t: Sys, j: nat, n: nat)
    requires Inv(l, s) && Reaches(l, s, run, t) && j < l.ninodes && n < MAXFILE
    ensures Shape(l, t) && CellAt(l, t, j, n) == CellAfter(CellAt(l, s, j, n), run, j, n)
    ensures t.ino[j].size == SizeAfter(s.ino[j].size, run, j)
    decreases |run|
  {
    if run != [] {
      StepKeepsInv(l, s, run[0]);
      StepOnFile(l, s, run[0], j, n);
      FileFollows(l, Do(l, s, run[0]), run[1..], t, j, n);
    }
  }

  /** An inode that is free owns nothing, and nobody is about to give it a block. */
  lemma FreeInodeOwnsNothing(l: Layout, s: Sys, i: nat, k: nat, b: nat, p: nat)
    requires Inv(l, s) && i < l.ninodes && s.ino[i].typ == 0 && k < PTRS && b < l.size && p < |s.hold|
    ensures Pointer(l, s, i, k) == 0 && s.own[b] != At(i, k) && !(s.hold[p].Holding? && s.hold[p].i == i)
  {
    InodeHas(l, s, i);
    HoldHas(l, s, p);
    BlockHas(l, s, b);
    assert s.ino[i].addrs[INDIRECT] == 0;
  }

  // ----- At rest

  /** Nobody is in balloc, bmap or itrunc. */
  predicate Calm(s: Sys) {
    && (forall p | 0 <= p < |s.hold| :: s.hold[p] == Nothing)
    && (forall i | 0 <= i < |s.cut| :: s.cut[i] == 0)
  }

  function OwnerOf(x: Place): Owner {
    match x
    case Spare => Free
    case System => Meta
    case At(i, k) => Slot(i, k)
    case With(_) => Free
  }

  function AsFs(s: Sys): (fs: Fs)
    ensures fs.blk == s.blk && fs.used == s.used && fs.ino == s.ino && |fs.own| == |s.own|
    ensures forall b {:trigger fs.own[b]} | 0 <= b < |s.own| :: fs.own[b] == OwnerOf(s.own[b])
  {
    Fs(s.blk, s.used, s.ino, seq(|s.own|, b requires 0 <= b < |s.own| => OwnerOf(s.own[b])))
  }

  /** At rest, the file system is as the operations that run alone leave it. */
  lemma CalmIsOwned(l: Layout, s: Sys)
    requires Inv(l, s) && Calm(s)
    ensures Owned(l, AsFs(s)) && forall b: nat | b < l.size :: MapBit(l, s.blk, b) == s.used[b]
  {
    var fs := AsFs(s);
    forall b: nat | b < l.size
      ensures BlockOk(l, fs, b) && MapBit(l, s.blk, b) == s.used[b]
    {
      BlockHas(l, s, b);
    }
    forall i: nat, k: nat | i < l.ninodes && k < PTRS
      ensures PtrOk(l, fs, i, k)
    {
      PtrHas(l, s, i, k);
    }
  }

  /** Run without interruption, the three steps are bmap's allocation. */
  lemma TakeInSteps(l: Layout, s: Sys, p: nat, i: nat, k: nat, b: nat)
    requires Inv(l, s) && Enabled(l, s, Mark(p, i, k, b))
    ensures var t := Do(l, s, Mark(p, i, k, b));
      && Inv(l, t) && Enabled(l, t, Zero(p, i))
      && var u := Do(l, t, Zero(p, i));
      && Inv(l, u) && Enabled(l, u, Link(p, i, k)) && s.ino[i].addrs[INDIRECT] < l.size
      && AsFs(Do(l, u, Link(p, i, k))) == Take(l, AsFs(s), i, k, b)
  {
    var t := Do(l, s, Mark(p, i, k, b));
    MarkKeepsInv(l, s, p, i, k, b);
    var u := Do(l, t, Zero(p, i));
    ZeroKeepsInv(l, t, p, i);
    IndirectHas(l, s, i);
    TakeSame(l, s, u, Do(l, u, Link(p, i, k)), p, i, k, b);
  }

  lemma TakeSame(l: Layout, s: Sys, u: Sys, v: Sys, p: nat, i: nat, k: nat, b: nat)
    requires Inv(l, s) && Enabled(l, s, Mark(p, i, k, b)) && s.ino[i].addrs[INDIRECT] < l.size
    requires u.blk == Allocated(l, s.blk, b) && u.used == s.used[b := true] && u.ino == s.ino && u.own == s.own[b := With(p)]
    requires Inv(l, u) && Enabled(l, u, Link(p, i, k)) && u.hold[p].b == b && v == Linked(l, u, p, i, k)
    ensures AsFs(v) == Take(l, AsFs(s), i, k, b)
  {
    var f := Take(l, AsFs(s), i, k, b);
    assert AsFs(v).own == f.own;
  }

  /** The steps of writei and iupdate are the changes those are proved to make. */
  lemma WriteInSteps(l: Layout, s: Sys, step: Step)
    requires Inv(l, s) && Enabled(l, s, step) && (step.Put? || step.Resize? || step.Update?) && Sizes(l, AsFs(s))
    ensures match step
            case Put(_, i, n, at, bytes) =>
              at == BSIZE || (DataBlock(l, AsFs(s), i, n) < l.size && AsFs(Do(l, s, step)) == FsState.Stored(l, AsFs(s), i, n * BSIZE + at, bytes))
            case Resize(_, i, size) => AsFs(Do(l, s, step)) == Resized(AsFs(s), i, size)
            case Update(_, i) => AsFs(Do(l, s, step)) == Updated(l, AsFs(s), i)
            case _ => true
  {
    if step.Put? {
      PtrHas(l, s, step.i, DataSlot(step.n));
      assert step.at < BSIZE ==> (step.n * BSIZE + step.at) / BSIZE == step.n && (step.n * BSIZE + step.at) % BSIZE == step.at;
    }
  }

  /** The state when nobody has begun. */
  function Boot(fs: Fs, procs: nat): (s: Sys)
    ensures |s.own| == |fs.own| && |s.lock| == |s.cut| == |fs.ino| && |s.hold| == procs && Calm(s)
  {
    Sys(fs.blk, fs.used, fs.ino, seq(|fs.ino|, _ => -1), seq(|fs.ino|, _ => 0), seq(procs, _ => Nothing),
        seq(|fs.own|, b requires 0 <= b < |fs.own| =>
          match fs.own[b] case Free => Spare case Meta => System case Slot(i, k) => At(i, k)))
  }

  lemma BootInv(l: Layout, fs: Fs, procs: nat)
    requires Owned(l, fs) && OnDisk(l, fs, -1)
    requires forall i | 0 <= i < l.ninodes && fs.ino[i].typ == 0 :: NoPointers(fs.ino[i])
    ensures Inv(l, Boot(fs, procs))
  {
    var s := Boot(fs, procs);
    forall b: nat | b < l.size
      ensures BlockFine(l, s, b)
    {
      assert BlockOk(l, fs, b);
    }
    forall i: nat, k: nat | i < l.ninodes && k < PTRS
      ensures PtrFine(l, s, i, k)
    {
      assert PtrOk(l, fs, i, k);
    }
    forall i: nat | i < l.ninodes
      ensures InodeFine(l, s, i)
    {
      assert fs.ino[i].typ == 0 ==> NoPointers(fs.ino[i]);
    }
    InvIs(l, s);
  }

  // ----- itrunc to its end

  /** The pointer whose turn it is. */
  function AtTurn(n: nat): nat
    requires n < PTRS
  {
    if n < INDIRECT then n else if n == PTRS - 1 then INDIRECT else n + 1
  }

  /** What is left of the marks once everything that inode i still has is freed. */
  ghost predicate Freed(s: Sys, t: Sys, i: nat) {
    && |t.used| == |s.used| == |s.own| == |t.own|
    && forall b | 0 <= b < |s.own| ::
         var mine := s.own[b].At? && s.own[b].i == i;
         t.used[b] == (s.used[b] && !mine) && t.own[b] == if mine then Spare else s.own[b]
  }

  lemma FreedThen(l: Layout, s: Sys, u: Sys, t: Sys, i: nat, k: nat)
    requires Inv(l, s) && i < l.ninodes && k < PTRS && Live(s, i, k) && u == Unmarked(l, s, i, k) && Freed(u, t, i)
    ensures Freed(s, t, i)
  {
    PtrHas(l, s, i, k);
    forall b: nat | b < l.size
      ensures BlockFine(l, s, b)
    {
      BlockHas(l, s, b);
    }
  }

  lemma NothingLeft(l: Layout, s: Sys, i: nat)
    requires Inv(l, s) && i < l.ninodes && s.cut[i] == PTRS
    ensures Freed(s, s, i)
  {
    forall b: nat | b < l.size
      ensures !(s.own[b].At? && s.own[b].i == i)
    {
      BlockHas(l, s, b);
    }
  }

  lemma {:induction false} WipeToEnd(l: Layout, s: Sys, p: nat, i: nat, k: nat) returns (run: seq<Step>, t: Sys)
    requires Inv(l, s) && p < |s.hold| && i < l.ninodes && s.lock[i] == p && s.cut[i] == PTRS && k <= NDIRECT + 1
    requires forall m | 0 <= m < k :: s.ino[i].addrs[m] == 0
    ensures Reaches(l, s, run, t) && Inv(l, t) && t == s.(ino := s.ino[i := Emptied(s.ino[i])], cut := s.cut[i := 0])
    decreases NDIRECT + 1 - k
  {
    if k == NDIRECT + 1 {
      EmptyKeepsInv(l, s, p, i);
      run, t := [Empty(p, i)], Do(l, s, Empty(p, i));
      assert s.ino[i].addrs == Emptied(s.ino[i]).addrs && run[1..] == [];
    } else {
      WipeKeepsInv(l, s, p, i, k);
      var more: seq<Step>;
      more, t := WipeToEnd(l, Do(l, s, Wipe(p, i, k)), p, i, k + 1);
      run := [Wipe(p, i, k)] + more;
      assert run[1..] == more;
    }
  }

  /** Whatever the others did before, a process in itrunc can go on to its end; then exactly the blocks the
      inode still had are free, and the inode is empty. */
  lemma {:induction false} TruncateToEnd(l: Layout, s: Sys, p: nat, i: nat) returns (run: seq<Step>, t: Sys)
    requires Inv(l, s) && p < |s.hold| && i < l.ninodes && s.lock[i] == p && s.hold[p] == Nothing
    ensures Reaches(l, s, run, t) && Inv(l, t) && Freed(s, t, i)
    ensures t.ino == s.ino[i := Emptied(s.ino[i])] && t.cut == s.cut[i := 0]
    decreases PTRS - s.cut[i]
  {
    InodeHas(l, s, i);
    if s.cut[i] == PTRS {
      NothingLeft(l, s, i);
      run, t := WipeToEnd(l, s, p, i, 0);
    } else {
      var k := AtTurn(s.cut[i]);
      UnmarkKeepsInv(l, s, p, i, k);
      var u := Unmarked(l, s, i, k);
      var more: seq<Step>;
      more, t := TruncateToEnd(l, u, p, i);
      FreedThen(l, s, u, t, i, k);
      run := [Unmark(p, i, k)] + more;
      assert run[1..] == more;
    }
  }
}
