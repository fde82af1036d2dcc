/** The processes' address spaces: what fork, exec, growproc and wait keep of them. */
module Spaces {
  import opened Pages
  import opened Vm

  const UINT := 0x1_0000_0000

  /** A size of sz: user pages 0 up to PGROUNDUP(sz) / PGSIZE and no others, and the whole kernel half. */
  ghost predicate SpaceOk(m: Mem, data: nat, d: nat, sz: nat) {
    d in m.dirs && sz < KERNBASE && Covers(m, d, PagesFor(sz)) && KernelUpTo(m, data, d, PTES * PTES)
  }

  ghost predicate SpacesOk(m: Mem, data: nat, size: map<nat, nat>) {
    forall d | d in size :: SpaceOk(m, data, d, size[d])
  }

  lemma SpacesKept(m: Mem, t: Mem, s: set<nat>, data: nat, size: map<nat, nat>)
    requires SpacesOk(m, data, size) && Kept(m, t, s) && size.Keys <= s && s <= t.dirs
    ensures SpacesOk(t, data, size)
  {
    forall d | d in size
      ensures SpaceOk(t, data, d, size[d])
    {
      CoversKept(m, t, s, d, PagesFor(size[d]));
      KernelKept(m, t, s, d, data);
    }
  }

  /** One address space changed size, and the others did not change. */
  lemma SpacesResized(m: Mem, t: Mem, d: nat, lo: nat, hi: nat, data: nat, size: map<nat, nat>, sz: nat)
    requires SpacesOk(m, data, size) && d in size && Untouched(m, t, d, lo, hi) && hi <= USER_PAGES
    requires sz < KERNBASE && Covers(t, d, PagesFor(sz))
    ensures SpacesOk(t, data, size[d := sz])
  {
    KernelUntouched(m, t, d, lo, hi, data);
    KeptElsewhere(m, t, d, lo, hi, size.Keys - {d});
    forall b | b in size && b != d
      ensures SpaceOk(t, data, b, size[b])
    {
      CoversKept(m, t, size.Keys - {d}, b, PagesFor(size[b]));
      KernelKept(m, t, size.Keys - {d}, b, data);
    }
  }

  /** exec gave d's process the address space c, and freed d. */
  lemma Replaced(m: Mem, u: Mem, t: Mem, data: nat, size: map<nat, nat>, d: nat, c: nat, sz: nat)
    requires SpacesOk(m, data, size) && Kept(m, u, m.dirs) && u.dirs == m.dirs + {c} && d in m.dirs && c !in m.dirs
    requires SpaceOk(u, data, c, sz) && t.dirs == u.dirs - {d} && Kept(u, t, t.dirs)
    ensures SpacesOk(t, data, (size - {d})[c := sz]) && Kept(m, t, m.dirs - {d})
    ensures forall v: nat | v < PTES * PTES :: SameLeaf(u, t, c, v)
  {
    SpacesKept(m, u, m.dirs, data, size);
    SpacesKept(u, t, t.dirs, data, (size - {d})[c := sz]);
    assert Kept(m, u, m.dirs - {d}) && Kept(u, t, m.dirs - {d}) by {
      KeptFewer(m, u, m.dirs, m.dirs - {d});
      KeptFewer(u, t, t.dirs, m.dirs - {d});
    }
    KeptThen(m, u, t, m.dirs - {d});
    forall v: nat | v < PTES * PTES
      ensures SameLeaf(u, t, c, v)
    {
      KeptHas(u, t, t.dirs, c, v);
    }
  }

  /** A segment to load: whether its header is in order, its end in memory, and whether its bytes could be read. */
  datatype Segment = Segment(checks: bool, top: nat, loads: bool)

  /** The end of the last segment. */
  function Top(segs: seq<Segment>): nat {
    if segs == [] then 0
    else var i := |segs| - 1; if segs[i].top > Top(segs[..i]) then segs[i].top else Top(segs[..i])
  }

  /** What exec prepares in d: zeroed writable pages for the user, but for page k, which the user cannot reach,
      below the stack. */
  ghost predicate Furnished(m: Mem, d: nat, k: nat) {
    forall v: nat | v < k + 2 :: FurnishedAt(m, d, k, v)
  }

  predicate FurnishedAt(m: Mem, d: nat, k: nat, v: nat) { Holds(m, d, v, Cell(v != k, true, ZeroPage())) }

  lemma FurnishedIs(m: Mem, t: Mem, d: nat, k: nat)
    requires Zeroed(m, d, 0, k + 2) && d in m.dirs && k < USER_PAGES - 2 && Untouched(m, t, d, k, k + 1)
    requires Lookup(m.page, d, k).To? && Lookup(t.page, d, k) == Lookup(m.page, d, k).(user := false)
    requires var f := Lookup(m.page, d, k).f; f < |m.page| == |t.page| && t.page[f] == m.page[f]
    ensures Furnished(t, d, k)
  {
    forall v: nat | v < k + 2
      ensures FurnishedAt(t, d, k, v)
    {
      assert Holds(m, d, v, Cell(true, true, ZeroPage()));
      if v != k {
        UntouchedLeaf(m, t, d, k, k + 1, d, v);
      }
    }
  }

  lemma FurnishedKept(m: Mem, t: Mem, d: nat, k: nat)
    requires Furnished(m, d, k) && k < USER_PAGES - 2 && forall v: nat | v < PTES * PTES :: SameLeaf(m, t, d, v)
    ensures Furnished(t, d, k)
  {
    forall v: nat | v < k + 2
      ensures FurnishedAt(t, d, k, v)
    {
      assert FurnishedAt(m, d, k, v) && SameLeaf(m, t, d, v);
    }
  }

  lemma WholePages(k: nat)
    ensures PagesFor(PGSIZE * k) == k && PGSIZE * k / PGSIZE == k
  {
  }

  /** sz - n in 32 bits: either it is that, or it is not below sz. */
  lemma ShrunkSize(sz: nat, n: nat)
    requires sz < KERNBASE && 0 < n <= 0x8000_0000
    ensures if n <= sz then (sz - n) % UINT == sz - n else (sz - n) % UINT >= sz
  {}

  /** d is left with the pages of `left` bytes: its size says so, unless it still says more than nothing. */
  lemma ShrunkSpaces(m: Mem, t: Mem, d: nat, left: nat, data: nat, size: map<nat, nat>)
    requires SpacesOk(m, data, size) && d in size && d in m.dirs && left <= size[d] < KERNBASE
    requires Untouched(m, t, d, PagesFor(left), PagesFor(size[d])) && Empty(t, d, PagesFor(left), PagesFor(size[d]))
    ensures Covers(t, d, PagesFor(left)) && SpacesOk(t, data, size[d := left])
    ensures left == 0 ==> (SpacesOk(t, data, size) <==> size[d] == 0)
  {
    var sz := size[d];
    assert SpaceOk(m, data, d, sz);
    CoversShrunk(m, t, d, PagesFor(left), PagesFor(sz));
    SpacesResized(m, t, d, PagesFor(left), PagesFor(sz), data, size, left);
    if left == 0 {
      if sz == 0 {
        assert size == size[d := 0];
      } else {
        assert Lookup(t.page, d, 0) == Absent;
        assert !SpaceOk(t, data, d, sz);
      }
    }
  }

  /** Every header is in order and every segment loads, below the kernel, and the first is not empty. */
  predicate Sound(segs: seq<Segment>) {
    && (forall i | 0 <= i < |segs| :: segs[i].checks && segs[i].loads && segs[i].top < KERNBASE)
    && (segs != [] ==> segs[0].top > 0)
  }

  /** The segments load into c, and the free pages do for them. */
  ghost predicate Loads(segs: seq<Segment>, m: Mem, c: nat) {
    Sound(segs) && |m.free| >= Needed(m, c, 0, PagesFor(Top(segs)))
  }

  /** There is room for the guard page and the stack above `top`. */
  predicate Fits(top: nat) { PGSIZE * (PagesFor(top) + 2) < KERNBASE }

  lemma {:induction false} TopNext(segs: seq<Segment>, i: nat)
    requires i < |segs|
    ensures Top(segs[..i + 1]) == if segs[i].top > Top(segs[..i]) then segs[i].top else Top(segs[..i])
    ensures Sound(segs[..i]) && segs[i].checks && segs[i].loads && segs[i].top < KERNBASE && Top(segs[..i + 1]) > 0 ==> Sound(segs[..i + 1])
  {
    assert segs[..i + 1][..i] == segs[..i];
  }

  lemma {:induction false} TopIsMost(segs: seq<Segment>, i: nat)
    requires i < |segs|
    ensures Top(segs) >= segs[i].top
  {
    if i < |segs| - 1 {
      TopIsMost(segs[..|segs| - 1], i);
    }
  }

  lemma {:induction false} TopBelow(segs: seq<Segment>)
    requires forall i | 0 <= i < |segs| :: segs[i].top < KERNBASE
    ensures Top(segs) < KERNBASE
  {
    if segs != [] {
      TopBelow(segs[..|segs| - 1]);
    }
  }

  /** allocuvm refuses segment i: the segments cannot be loaded. */
  lemma SegmentFails(m: Mem, c: nat, segs: seq<Segment>, i: nat)
    requires i < |segs| && Sound(segs[..i])
    requires var top, sz := segs[i].top, Top(segs[..i]);
      top >= KERNBASE || (sz <= top && (top == 0 || |m.free| < Needed(m, c, 0, PagesFor(top)))) || (top < sz && sz == 0)
    ensures !Loads(segs, m, c)
  {
    if Sound(segs) {
      TopBelow(segs);
      TopIsMost(segs, i);
      if i > 0 {
        TopIsMost(segs[..i], 0);
      }
      NeededGrows(m, c, 0, PagesFor(segs[i].top), PagesFor(Top(segs)));
    }
  }

  /** Since m, exactly pages 0 up to k were added to c, zero and writable by the user, and cost what they needed. */
  ghost predicate Image(m: Mem, t: Mem, c: nat, k: nat) {
    Inv(t) && ImageBehind(m, t, c, k, 1)
  }

  ghost predicate ImageBehind(m: Mem, t: Mem, c: nat, k: nat, turns: nat) {
    if turns == 0 then
      && Takens(t) == Takens(m) && c in t.dirs && Untouched(m, t, c, 0, USER_PAGES) && Covers(t, c, k) && Zeroed(t, c, 0, k)
      && Slots(m, t, c, 0, k) && |t.free| + Needed(m, c, 0, k) == |m.free|
    else
      ImageBehind(m, t, c, k, turns - 1)
  }

  lemma ImageHas(m: Mem, t: Mem, c: nat, k: nat)
    requires Image(m, t, c, k)
    ensures Takens(t) == Takens(m) && c in t.dirs && Untouched(m, t, c, 0, USER_PAGES) && Covers(t, c, k)
    ensures |t.free| + Needed(m, c, 0, k) == |m.free| && Zeroed(t, c, 0, k)
  {
    assert ImageBehind(m, t, c, k, 0);
  }

  lemma ImageStart(m: Mem, c: nat)
    requires Inv(m) && c in m.dirs && Covers(m, c, 0)
    ensures Image(m, m, c, 0)
  {
    UntouchedSelf(m, c, 0, USER_PAGES);
    assert NewSlots(m, c, 0, 0) == {};
    assert ImageBehind(m, m, c, 0, 0);
  }

  /** allocuvm from page lo to page hi. */
  lemma ImageNext(m: Mem, n: Mem, t: Mem, c: nat, lo: nat, hi: nat, grown: bool)
    requires Image(m, n, c, lo) && c in m.dirs && lo <= hi <= USER_PAGES && Inv(t) && Takens(t) == Takens(n)
    requires Untouched(m, t, c, 0, USER_PAGES) && Untouched(n, t, c, lo, hi)
    requires if grown then Added(n, t, c, lo, hi) else |n.free| < Needed(n, c, lo, hi)
    ensures grown <==> |m.free| >= Needed(m, c, 0, hi)
    ensures grown ==> Image(m, t, c, hi)
  {
    assert ImageBehind(m, n, c, lo, 0);
    NeededThen(m, n, c, 0, lo, hi);
    if grown {
      CoversGrown(n, t, c, lo, hi);
      SlotsThen(m, n, t, c, 0, lo, hi);
      ZeroedThen(n, t, c, 0, lo, hi);
      assert ImageBehind(m, t, c, hi, 0);
    }
  }

  lemma CoversNoRemap(m: Mem, d: nat, lo: nat, hi: nat)
    requires Covers(m, d, lo)
    ensures Empty(m, d, lo, hi) && (hi <= USER_PAGES ==> !Remaps(m, d, lo, hi))
  {}

  /** What exec takes, in a new address space. */
  lemma ExecCost(n: Mem, c: nat, segs: seq<Segment>)
    requires SlotsInUse(n, c) == KernelSlots(PTES * PTES)
    ensures Sound(segs) ==> Top(segs) < KERNBASE
    ensures Sound(segs) && Fits(Top(segs)) ==>
      var k := PagesFor(Top(segs)) + 2;
      KERNEL_PAGES + Needed(n, c, 0, k) == CopyCost(k) && Needed(n, c, 0, k - 2) <= Needed(n, c, 0, k)
  {
    if Sound(segs) {
      TopBelow(segs);
      if Fits(Top(segs)) {
        var k := PagesFor(Top(segs)) + 2;
        NeededBlank(n, c, k);
        NeededGrows(n, c, 0, k - 2, k);
      }
    }
  }

  class Processes {
    const mem: Memory
    var size: map<nat, nat>   // the sz of each process, by its pgdir

    /** Every page is in one place, and every process has exactly the user pages its size covers. */
    ghost predicate Valid()
      reads this, mem
    {
      Inv(mem.View()) && DataPage(mem.data) && SpacesOk(mem.View(), mem.data, size)
    }

    constructor (mem: Memory)
      requires Inv(mem.View()) && DataPage(mem.data)
      ensures Valid() && this.mem == mem && size == map[]
    {
      this.mem := mem;
      size := map[];
    }

    /** growproc(n) with n > 0: r is what it returns. */
    method Grow(d: nat, n: nat) returns (r: int)
      requires Valid() && d in size && 0 < n < 0x8000_0000
      modifies this, mem
      ensures Valid() && Takens(mem.View()) == old(Takens(mem.View())) && mem.dirs == old(mem.dirs)
      ensures var sz := old(size[d]);
        && r == (if sz + n < KERNBASE && |old(mem.free)| >= Needed(old(mem.View()), d, PagesFor(sz), PagesFor(sz + n)) then 0 else -1)
        && size == (if r == 0 then old(size)[d := sz + n] else old(size))
        && Untouched(old(mem.View()), mem.View(), d, PagesFor(sz), PagesFor(sz + n))
      ensures r == 0 ==> Zeroed(mem.View(), d, PagesFor(old(size[d])), PagesFor(size[d]))
    {
      ghost var m, sz := mem.View(), size[d];
      assert SpaceOk(m, mem.data, d, sz);
      UntouchedSelf(m, d, PagesFor(sz), PagesFor(sz + n));
      var ok: bool;
      CoversNoRemap(m, d, PagesFor(sz), PagesFor(sz + n));
      ok, r := mem.AllocUvm(d, size[d], size[d] + n);
      if sz + n < KERNBASE {
        CoversGrown(m, mem.View(), d, PagesFor(sz), PagesFor(sz + n));
        SpacesResized(m, mem.View(), d, PagesFor(sz), PagesFor(sz + n), mem.data, size, if r == 0 then sz else sz + n);
      }
      if r == 0 {
        assert size == size[d := sz];
        return -1;
      }
      size := size[d := r];
      r := 0;
    }

    /** growproc(-n) with n > 0. The size is then sz - n, or what it was when there is not so much to give back;
        to give back exactly all of it frees every page and yet leaves the size. */
    method Shrink(d: nat, n: nat) returns (r: int)
      requires Valid() && d in size && 0 < n <= 0x8000_0000
      modifies this, mem
      ensures Inv(mem.View()) && Takens(mem.View()) == old(Takens(mem.View())) && mem.dirs == old(mem.dirs)
      ensures Valid() <==> old(size[d]) == 0 || old(size[d]) != n
      ensures var sz := old(size[d]); var left := if n <= sz then sz - n else sz;
        && r == (if left == 0 then -1 else 0)
        && size == (if left == 0 then old(size) else old(size)[d := left])
        && Untouched(old(mem.View()), mem.View(), d, PagesFor(left), PagesFor(sz))
        && Covers(mem.View(), d, PagesFor(left))
    {
      ghost var m, sz := mem.View(), size[d];
      ghost var left := if n <= sz then sz - n else sz;
      assert SpaceOk(m, mem.data, d, sz);
      ShrunkSize(sz, n);
      UntouchedSelf(m, d, PagesFor(left), PagesFor(sz));
      r := mem.DeallocUvm(d, size[d], (size[d] - n) % UINT);
      ShrunkSpaces(m, mem.View(), d, left, mem.data, size);
      if r == 0 {
        return -1;
      }
      size := size[d := r];
      r := 0;
    }

    /** growproc. */
    method GrowProc(d: nat, n: int) returns (r: int)
      requires Valid() && d in size && -0x8000_0000 <= n < 0x8000_0000
      modifies this, mem
      ensures Inv(mem.View()) && Takens(mem.View()) == old(Takens(mem.View())) && mem.dirs == old(mem.dirs)
      ensures Valid() <==> !(old(size[d]) > 0 && old(size[d]) + n == 0)
      ensures size == if r == 0 && old(size[d]) + n > 0 then old(size)[d := old(size[d]) + n] else old(size)
      ensures var sz := old(size[d]);
        if n > 0 then
          && r == (if sz + n < KERNBASE && |old(mem.free)| >= Needed(old(mem.View()), d, PagesFor(sz), PagesFor(sz + n)) then 0 else -1)
          && (r == 0 ==> Zeroed(mem.View(), d, PagesFor(sz), PagesFor(sz + n)))
        else r == if n == 0 || (sz > 0 && sz + n != 0) then 0 else -1
      ensures Kept(old(mem.View()), mem.View(), mem.dirs - {d})
    {
      ghost var m, sz := mem.View(), size[d];
      if n > 0 {
        r := Grow(d, n);
        KeptElsewhere(m, mem.View(), d, PagesFor(sz), PagesFor(sz + n), mem.dirs - {d});
      } else if n < 0 {
        r := Shrink(d, -n);
        KeptElsewhere(m, mem.View(), d, PagesFor(if -n <= sz then sz + n else sz), PagesFor(sz), mem.dirs - {d});
      } else {
        UntouchedSelf(m, d, 0, 0);
        KeptElsewhere(m, m, d, 0, 0, mem.dirs - {d});
        r := 0;
      }
    }

    /** fork: c is the child's pgdir, or -1. */
    method Fork(d: nat) returns (c: int)
      requires Valid() && d in size
      modifies this, mem
      ensures Valid() && Takens(mem.View()) == old(Takens(mem.View())) && Kept(old(mem.View()), mem.View(), old(mem.dirs))
      ensures c >= 0 <==> |old(mem.free)| >= CopyCost(PagesFor(old(size[d])))
      ensures c < 0 ==> size == old(size) && mem.own == old(mem.own) && multiset(mem.free) == multiset(old(mem.free))
      ensures c >= 0 ==> c !in old(mem.dirs) && size == old(size)[c as nat := old(size[d])]
      ensures c >= 0 ==> Copied(old(mem.View()), d, mem.View(), c, PagesFor(old(size[d])))
      ensures c >= 0 ==> |old(mem.free)| == |mem.free| + CopyCost(PagesFor(size[d]))
    {
      ghost var m, sz := mem.View(), size[d];
      assert SpaceOk(m, mem.data, d, sz);
      var r := mem.CopyUvm(d, size[d]);
      SpacesKept(m, mem.View(), m.dirs, mem.data, size);
      if r == NoMemory {
        return -1;
      }
      c := r.c;
      CopiedCovers(m, d, mem.View(), c, PagesFor(sz));
      size := size[r.c := size[d]];
    }

    /** The end of a process: wait frees its address space. */
    method Reap(d: nat)
      requires Valid() && d in size
      modifies this, mem
      ensures Valid() && size == old(size) - {d} && mem.dirs == old(mem.dirs) - {d}
      ensures Takens(mem.View()) == old(Takens(mem.View())) && Kept(old(mem.View()), mem.View(), mem.dirs)
    {
      ghost var m := mem.View();
      assert SpaceOk(m, mem.data, d, size[d]);
      mem.FreeVm(d);
      size := size - {d};
      SpacesKept(m, mem.View(), mem.dirs, mem.data, size);
    }

    /** exec: the pages of one segment, up to `top`. */
    method LoadSegment(c: nat, sz: nat, top: nat, ghost m: Mem) returns (r: nat)
      requires Inv(m) && c in m.dirs && sz <= KERNBASE && Image(m, mem.View(), c, PagesFor(sz))
      modifies mem
      ensures Inv(mem.View()) && Takens(mem.View()) == Takens(m) && Untouched(m, mem.View(), c, 0, USER_PAGES)
      ensures r == if top >= KERNBASE then 0 else if top < sz then sz
                   else if |m.free| >= Needed(m, c, 0, PagesFor(top)) then top else 0
      ensures r > 0 ==> Image(m, mem.View(), c, PagesFor(r))
    {
      ghost var n, lo, hi := mem.View(), PagesFor(sz), PagesFor(top);
      ImageHas(m, n, c, lo);
      var ok: bool;
      CoversNoRemap(n, c, lo, hi);
      ok, r := mem.AllocUvm(c, sz, top);
      if sz <= top < KERNBASE {
        UntouchedThen(m, n, mem.View(), c, 0, USER_PAGES, lo, hi, 0, USER_PAGES);
        ImageNext(m, n, mem.View(), c, lo, hi, r == top);
      }
    }

    /** exec: a page for every byte up to the end of each segment. */
    method LoadSegments(c: nat, segs: seq<Segment>) returns (ok: bool, sz: nat)
      requires Inv(mem.View()) && c in mem.dirs && Covers(mem.View(), c, 0)
      modifies mem
      ensures Inv(mem.View()) && Takens(mem.View()) == old(Takens(mem.View())) && mem.dirs == old(mem.dirs)
      ensures Untouched(old(mem.View()), mem.View(), c, 0, USER_PAGES)
      ensures ok == Loads(segs, old(mem.View()), c)
      ensures ok ==> sz == Top(segs) < KERNBASE && Image(old(mem.View()), mem.View(), c, PagesFor(sz))
    {
      ghost var m := mem.View();
      ImageStart(m, c);
      sz := 0;
      for i := 0 to |segs|
        invariant Sound(segs[..i]) && sz == Top(segs[..i]) < KERNBASE && Image(m, mem.View(), c, PagesFor(sz))
      {
        ImageHas(m, mem.View(), c, PagesFor(sz));
        TopNext(segs, i);
        if !segs[i].checks {
          return false, 0;
        }
        var r := LoadSegment(c, sz, segs[i].top, m);
        if r == 0 {
          SegmentFails(m, c, segs, i);
          return false, 0;
        }
        if !segs[i].loads {
          return false, 0;
        }
        sz := r;
      }
      assert segs[..|segs|] == segs;
      ImageHas(m, mem.View(), c, PagesFor(sz));
      ok := true;
    }

    /** exec, after the segments: a page the user cannot reach, and the stack above it. */
    method AddStack(c: nat, top: nat, ghost m: Mem) returns (sz: nat)
      requires Inv(m) && c in m.dirs && top < KERNBASE && Image(m, mem.View(), c, PagesFor(top))
      modifies mem
      ensures Inv(mem.View()) && Takens(mem.View()) == Takens(m) && mem.dirs == m.dirs
      ensures Untouched(m, mem.View(), c, 0, USER_PAGES)
      ensures var k := PagesFor(top) + 2;
        sz == if PGSIZE * k < KERNBASE && |m.free| >= Needed(m, c, 0, k) then PGSIZE * k else 0
      ensures sz > 0 ==> Covers(mem.View(), c, PagesFor(top) + 2) && Furnished(mem.View(), c, PagesFor(top))
    {
      ghost var k := PagesFor(top);
      var base := PGSIZE * PagesFor(top);
      WholePages(k);
      WholePages(k + 2);
      ImageHas(m, mem.View(), c, k);
      sz := LoadSegment(c, base, base + 2 * PGSIZE, m);
      if sz > 0 {
        ghost var n := mem.View();
        ImageHas(m, n, c, k + 2);
        mem.ClearPteu(c, sz / PGSIZE - 2);
        CoversFlags(n, mem.View(), c, k, k + 2);
        FurnishedIs(n, mem.View(), c, k);
        UntouchedThen(m, n, mem.View(), c, 0, USER_PAGES, k, k + 1, 0, USER_PAGES);
      }
    }

    /** exec up to the commit to the new image: an address space with the segments and the stack. */
    method BuildImage(segs: seq<Segment>, fits: bool) returns (c: int, sz: nat)
      requires Inv(mem.View()) && DataPage(mem.data)
      modifies mem
      ensures Inv(mem.View()) && Takens(mem.View()) == old(Takens(mem.View())) && Kept(old(mem.View()), mem.View(), old(mem.dirs))
      ensures c >= 0 <==> Sound(segs) && fits && Fits(Top(segs)) && |old(mem.free)| >= CopyCost(PagesFor(Top(segs)) + 2)
      ensures c < 0 ==> mem.dirs == old(mem.dirs) && mem.own == old(mem.own) && multiset(mem.free) == multiset(old(mem.free))
      ensures c >= 0 ==> c !in old(mem.dirs) && mem.dirs == old(mem.dirs) + {c as nat}
      ensures c >= 0 ==> sz == PGSIZE * (PagesFor(Top(segs)) + 2) && SpaceOk(mem.View(), mem.data, c, sz)
      ensures c >= 0 ==> Furnished(mem.View(), c, PagesFor(Top(segs)))
    {
      ghost var m := mem.View();
      c := mem.SetupKvm();
      if c < 0 {
        return c, 0;
      }
      ghost var n := mem.View();
      ExecCost(n, c, segs);
      var ok: bool;
      ok, sz := LoadSegments(c, segs);
      if ok {
        sz := AddStack(c, sz, n);
      }
      KeptElsewhere(n, mem.View(), c, 0, USER_PAGES, m.dirs);
      KeptThen(m, n, mem.View(), m.dirs);
      ghost var u := mem.View();
      if !ok || sz == 0 || !fits {
        mem.FreeVm(c);
        KeptThen(m, u, mem.View(), m.dirs);
        AllBack(m, mem.View());
        return -1, 0;
      }
      KernelUntouched(n, u, c, 0, USER_PAGES, mem.data);
      WholePages(PagesFor(Top(segs)) + 2);
    }

    /** exec of process d: c is its new pgdir, or -1. `fits` says whether the arguments fit on the stack. */
    method Exec(d: nat, segs: seq<Segment>, fits: bool) returns (c: int)
      requires Valid() && d in size
      modifies this, mem
      ensures Valid() && Takens(mem.View()) == old(Takens(mem.View()))
      ensures c >= 0 <==> Sound(segs) && fits && Fits(Top(segs)) && |old(mem.free)| >= CopyCost(PagesFor(Top(segs)) + 2)
      ensures c < 0 ==> size == old(size) && mem.own == old(mem.own) && multiset(mem.free) == multiset(old(mem.free))
      ensures c < 0 ==> Kept(old(mem.View()), mem.View(), mem.dirs)
      ensures c >= 0 ==> c !in old(mem.dirs) && mem.dirs == old(mem.dirs) - {d} + {c as nat}
      ensures c >= 0 ==> size == (old(size) - {d})[c as nat := PGSIZE * (PagesFor(Top(segs)) + 2)]
      ensures c >= 0 ==> Kept(old(mem.View()), mem.View(), old(mem.dirs) - {d})
      ensures c >= 0 ==> Furnished(mem.View(), c, PagesFor(Top(segs)))
    {
      ghost var m := mem.View();
      assert SpaceOk(m, mem.data, d, size[d]);
      var sz: nat;
      c, sz := BuildImage(segs, fits);
      ghost var u := mem.View();
      if c < 0 {
        SpacesKept(m, u, m.dirs, mem.data, size);
        return;
      }
      size := (size - {d})[c as nat := sz];
      mem.FreeVm(d);
      Replaced(m, u, mem.View(), mem.data, old(size), d, c, sz);
      FurnishedKept(u, mem.View(), c, PagesFor(Top(segs)));
    }
  }
}
