/** How many blocks a write takes: the free blocks of the map against the pointers that are missing. */
module FsSpace {
  import opened Blocks
  import opened FsCodec
  import opened FsState

  ghost function FreeBlocks(used: seq<bool>): set<nat> {
    set b: nat | b < |used| && !used[b]
  }

  ghost function FreeCount(used: seq<bool>): nat { |FreeBlocks(used)| }

  lemma NoneFree(used: seq<bool>)
    ensures FreeCount(used) == 0 <==> forall b | 0 <= b < |used| :: used[b]
  {
    forall b: nat | b < |used| && !used[b]
      ensures b in FreeBlocks(used)
    {}
  }

  lemma OneTaken(used: seq<bool>, b: nat)
    requires b < |used| && !used[b]
    ensures FreeCount(used) == FreeCount(used[b := true]) + 1
  {
    assert b in FreeBlocks(used);
    assert FreeBlocks(used[b := true]) == FreeBlocks(used) - {b};
  }

  /** balloc's two ends: a free block, which is then one fewer, or none. */
  lemma CountAfter(used: seq<bool>, found: bool, b: nat)
    requires if found then b < |used| && !used[b] else forall x | 0 <= x < |used| :: used[x]
    ensures found == (FreeCount(used) > 0) && (found ==> FreeCount(used) == FreeCount(used[b := true]) + 1)
  {
    if found {
      OneTaken(used, b);
    } else {
      NoneFree(used);
    }
  }

  /** The blocks lo up to hi of file i that are not there. */
  ghost function Missing(l: Layout, fs: Fs, i: nat, lo: nat, hi: nat): set<nat>
    requires Sizes(l, fs) && i < l.ninodes
  {
    set n: nat | lo <= n < hi && n < MAXFILE && DataBlock(l, fs, i, n) == 0
  }

  /** Blocks lo up to hi go through the indirect block, and file i has none. */
  predicate NoIndirect(l: Layout, fs: Fs, i: nat, lo: nat, hi: nat)
    requires Sizes(l, fs) && i < l.ninodes
  {
    lo < hi && hi > NDIRECT && fs.ino[i].addrs[INDIRECT] == 0
  }

  /** The fresh blocks it takes to have blocks lo up to hi of file i. */
  ghost function Needed(l: Layout, fs: Fs, i: nat, lo: nat, hi: nat): nat
    requires Sizes(l, fs) && i < l.ninodes
  {
    |Missing(l, fs, i, lo, hi)| + if NoIndirect(l, fs, i, lo, hi) then 1 else 0
  }

  /** The block behind the last one that n bytes from `start` on touch. */
  function Reach(start: nat, n: nat): nat {
    if n == 0 then start / BSIZE else (start + n + BSIZE - 1) / BSIZE
  }

  /** What bmap takes for block n alone. */
  function BlockCost(l: Layout, fs: Fs, i: nat, n: nat): nat
    requires Sizes(l, fs) && i < l.ninodes && n < MAXFILE
  {
    (if DataBlock(l, fs, i, n) == 0 then 1 else 0) + if n >= NDIRECT && fs.ino[i].addrs[INDIRECT] == 0 then 1 else 0
  }

  lemma MissingNext(l: Layout, fs: Fs, i: nat, lo: nat, n: nat)
    requires Sizes(l, fs) && i < l.ninodes && lo <= n < MAXFILE
    ensures |Missing(l, fs, i, lo, n + 1)| == |Missing(l, fs, i, lo, n)| + if DataBlock(l, fs, i, n) == 0 then 1 else 0
  {
    var a := Missing(l, fs, i, lo, n);
    if DataBlock(l, fs, i, n) == 0 {
      assert Missing(l, fs, i, lo, n + 1) == a + {n};
      assert n !in a;
    } else {
      assert Missing(l, fs, i, lo, n + 1) == a;
    }
  }

  lemma NeededNext(l: Layout, fs: Fs, i: nat, lo: nat, n: nat)
    requires Sizes(l, fs) && i < l.ninodes && lo <= n < MAXFILE
    ensures Needed(l, fs, i, lo, n + 1) == Needed(l, fs, i, lo, n) + (if DataBlock(l, fs, i, n) == 0 then 1 else 0)
              + if n >= NDIRECT && fs.ino[i].addrs[INDIRECT] == 0 && !NoIndirect(l, fs, i, lo, n) then 1 else 0
  {
    MissingNext(l, fs, i, lo, n);
  }

  lemma NeededGrows(l: Layout, fs: Fs, i: nat, lo: nat, n: nat, hi: nat)
    requires Sizes(l, fs) && i < l.ninodes && lo <= n <= hi <= MAXFILE
    ensures Needed(l, fs, i, lo, n) <= Needed(l, fs, i, lo, hi)
    decreases hi - n
  {
    if n < hi {
      NeededNext(l, fs, i, lo, n);
      NeededGrows(l, fs, i, lo, n + 1, hi);
    }
  }

  /** File i got blocks lo up to hi, and for them exactly the fresh blocks it needed; its other blocks are
      where they were. */
  ghost predicate Supplied(l: Layout, fs: Fs, t: Fs, i: nat, lo: nat, hi: nat) {
    && Sizes(l, fs) && Sizes(l, t) && i < l.ninodes && lo <= hi <= MAXFILE
    && FreeCount(t.used) + Needed(l, fs, i, lo, hi) == FreeCount(fs.used)
    && (t.ino[i].addrs[INDIRECT] == 0 <==> fs.ino[i].addrs[INDIRECT] == 0 && !NoIndirect(l, fs, i, lo, hi))
    && forall n: nat | n < MAXFILE ::
         if lo <= n < hi then DataBlock(l, t, i, n) != 0 else DataBlock(l, t, i, n) == DataBlock(l, fs, i, n)
  }

  lemma SuppliedNothing(l: Layout, fs: Fs, i: nat, lo: nat)
    requires Sizes(l, fs) && i < l.ninodes && lo <= MAXFILE
    ensures Supplied(l, fs, fs, i, lo, lo)
  {
    assert Missing(l, fs, i, lo, lo) == {};
  }

  /** One block more. */
  lemma SuppliedNext(l: Layout, fs: Fs, t: Fs, u: Fs, i: nat, lo: nat, n: nat)
    requires Supplied(l, fs, t, i, lo, n) && n < MAXFILE && Sizes(l, u)
    requires FreeCount(u.used) + BlockCost(l, t, i, n) == FreeCount(t.used)
    requires DataBlock(l, u, i, n) != 0 && (n >= NDIRECT ==> u.ino[i].addrs[INDIRECT] != 0)
    requires n < NDIRECT || t.ino[i].addrs[INDIRECT] != 0 ==> u.ino[i].addrs[INDIRECT] == t.ino[i].addrs[INDIRECT]
    requires forall k: nat | k < MAXFILE && k != n :: DataBlock(l, u, i, k) == DataBlock(l, t, i, k)
    ensures Supplied(l, fs, u, i, lo, n + 1)
  {
    NeededNext(l, fs, i, lo, n);
  }

  /** What is left does not do for block n: there was not enough from the start. */
  lemma SuppliedShort(l: Layout, fs: Fs, t: Fs, i: nat, lo: nat, n: nat, hi: nat)
    requires Supplied(l, fs, t, i, lo, n) && n < hi <= MAXFILE && FreeCount(t.used) < BlockCost(l, t, i, n)
    ensures FreeCount(fs.used) < Needed(l, fs, i, lo, hi)
  {
    NeededNext(l, fs, i, lo, n);
    NeededGrows(l, fs, i, lo, n + 1, hi);
  }

  /** A second write that starts where the first one ended, in its last block or behind it. */
  lemma NeededThen(l: Layout, fs: Fs, t: Fs, i: nat, lo: nat, mid: nat, from: nat, hi: nat)
    requires Supplied(l, fs, t, i, lo, mid) && lo < mid && mid - 1 <= from <= mid <= hi <= MAXFILE
    ensures Needed(l, fs, i, lo, hi) == Needed(l, fs, i, lo, mid) + Needed(l, t, i, from, hi)
  {
    assert Missing(l, fs, i, lo, hi) == Missing(l, fs, i, lo, mid) + Missing(l, t, i, from, hi);
    assert Missing(l, fs, i, lo, mid) !! Missing(l, t, i, from, hi);
  }

  lemma SuppliedThen(l: Layout, fs: Fs, t: Fs, u: Fs, i: nat, lo: nat, mid: nat, from: nat, hi: nat)
    requires Supplied(l, fs, t, i, lo, mid) && lo < mid && mid - 1 <= from <= mid <= hi
    requires Supplied(l, t, u, i, from, hi)
    ensures Supplied(l, fs, u, i, lo, hi)
  {
    NeededThen(l, fs, t, i, lo, mid, from, hi);
  }

  /** Nothing that matters to the count changes. */
  lemma SuppliedSame(l: Layout, fs: Fs, t: Fs, u: Fs, i: nat, lo: nat, hi: nat)
    requires Supplied(l, fs, t, i, lo, hi) && Sizes(l, u) && u.used == t.used && u.ino[i].addrs == t.ino[i].addrs
    requires forall n: nat | n < MAXFILE :: DataBlock(l, u, i, n) == DataBlock(l, t, i, n)
    ensures Supplied(l, fs, u, i, lo, hi)
  {}

  lemma ReachSteps(start: nat, a: nat, b: nat)
    requires a > 0
    ensures Reach(start, a) - 1 <= (start + a) / BSIZE <= Reach(start, a) && start / BSIZE < Reach(start, a)
    ensures b > 0 ==> Reach(start + a, b) == Reach(start, a + b) && Reach(start, a) <= Reach(start, a + b)
  {}
}
