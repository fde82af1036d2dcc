/** kalloc.c and vm.c: the methods that hand out pages and build, grow, shrink, copy and free address spaces. */
module Vm {
  import opened Pages

  const PGSIZE := 4096
  const KERNBASE := 0x8000_0000

  /** The pages it takes to hold sz bytes: PGROUNDUP(sz) / PGSIZE. */
  function PagesFor(sz: nat): nat { (sz + PGSIZE - 1) / PGSIZE }

  /** The fewest pages that hold sz bytes. */
  lemma PagesForIs(sz: nat)
    ensures PagesFor(sz) * PGSIZE >= sz && (PagesFor(sz) > 0 ==> (PagesFor(sz) - 1) * PGSIZE < sz)
  {}

  /** The directory slot and the table entry of a 32-bit address are its upper ten bits and the next ten. */
  lemma AddressSplits(va: nat)
    requires va < 0x1_0000_0000
    ensures va / PGSIZE / PTES == va / 0x40_0000 && va / PGSIZE % PTES == va % 0x40_0000 / 0x1000
  {}

  /** The kernel half: physical memory up to PHYSTOP is at KERNBASE and above, and the devices are where they
      are; text and read-only data are not writable, nothing is the user's, and there is nothing else. */
  lemma KernelHalf(m: Mem, data: nat, d: nat, f: nat)
    requires KernelUpTo(m, data, d, PTES * PTES) && DataPage(data) && f < PTES * PTES
    ensures f < 0xE000 ==> Lookup(m.page, d, KERNBASE / PGSIZE + f) == To(f, false, f < 0x100 || f >= data)
    ensures f >= 0xFE000 ==> Lookup(m.page, d, f) == To(f, false, true)
    ensures KERNBASE / PGSIZE + 0xE000 <= f < 0xFE000 ==> Lookup(m.page, d, f) == Absent
  {}

  /** Pages lo up to hi of d are new in t, zero, and cost exactly what they needed. */
  ghost predicate Added(m: Mem, t: Mem, d: nat, lo: nat, hi: nat) {
    Zeroed(t, d, lo, hi) && Slots(m, t, d, lo, hi) && |t.free| + Needed(m, d, lo, hi) == |m.free|
  }

  lemma CopyEnd(m: Mem, n: Mem, t: Mem, d: nat, c: nat, hi: nat, data: nat)
    requires Copying(m, n, t, d, c, hi, hi) && hi <= USER_PAGES && c in n.dirs && c !in m.dirs && m.dirs <= n.dirs && Kept(m, n, m.dirs)
    requires |n.free| == |m.free| - KERNEL_PAGES && SlotsInUse(n, c) == KernelSlots(PTES * PTES) && KernelUpTo(n, data, c, PTES * PTES)
    ensures Inv(t) && Takens(t) == Takens(m) && Kept(m, t, m.dirs) && !Gap(m, d, hi) && |m.free| == |t.free| + CopyCost(hi)
    ensures Copied(m, d, t, c, hi) && Empty(t, c, hi, USER_PAGES) && KernelUpTo(t, data, c, PTES * PTES)
  {
    CopyingIs(m, n, t, d, c, hi, hi);
    NeededBlank(n, c, hi);
    CopiedNoGap(m, d, t, c, hi);
    KeptElsewhere(n, t, c, 0, hi, m.dirs);
    KeptThen(m, n, t, m.dirs);
    KernelUntouched(n, t, c, 0, hi, data);
  }

  datatype MapResult = Mapped | NoPage | Remap

  datatype CopyResult = Copy(c: nat) | NoMemory | Panicked

  class Memory {
    const data: nat           // the physical page of the kernel's data
    var page: seq<Page>       // physical pages
    var freelist: int         // kmem.freelist, -1 for none
    ghost var free: seq<nat>
    ghost var own: seq<Owner>
    ghost var dirs: set<nat>

    ghost function View(): Mem
      reads this
    {
      Mem(page, freelist, free, own, dirs)
    }

    /** kinit: freerange over the pages from first on; the rest is the kernel's. */
    constructor (count: nat, first: nat, data: nat)
      requires first <= count
      ensures Inv(View()) && dirs == {} && this.data == data && |page| == count
      ensures forall f: nat | f < count :: own[f] == if f < first then Taken else Spare
    {
      this.data := data;
      page, freelist := seq(count, _ => ZeroPage()), -1;
      free, own, dirs := [], seq(count, _ => Taken), {};
      new;
      InvIs(View());
      for p := first to count
        invariant Inv(View()) && dirs == {} && this.data == data && |page| == count
        invariant forall f: nat | f < count :: own[f] == if first <= f < p then Spare else Taken
      {
        Kfree(p);
      }
    }

    method Kalloc() returns (f: int)
      requires Inv(View())
      modifies this
      ensures Inv(View())
      ensures old(free) == [] ==> f == -1 && View() == old(View())
      ensures old(free) != [] ==> old(free)[0] < |old(own)| && f == old(free)[0] && View() == Popped(old(View()))
      ensures old(free) != [] ==> free == old(free)[1..] && page == old(page) && own == old(own)[f := Taken] && dirs == old(dirs)
    {
      ListHas(View());
      f := freelist;
      if f >= 0 {
        PoppedKeepsInv(View());
        freelist := page[f].next;
        free, own := free[1..], own[f := Taken];
      }
    }

    method Kfree(f: nat)
      requires Inv(View()) && f < |page| && own[f] == Taken
      modifies this
      ensures Inv(View()) && f < |old(page)| && View() == Pushed(old(View()), f)
      ensures free == [f] + old(free) && own == old(own)[f := Spare] && dirs == old(dirs)
      ensures forall g | 0 <= g < |page| && g != f :: page[g] == old(page)[g]
    {
      PushedKeepsInv(View(), f);
      page := page[f := Link(freelist)];
      freelist := f;
      free, own := [f] + free, own[f := Spare];
    }

    /** kalloc, then memset or memmove. */
    method Grab(p: Page) returns (f: int)
      requires Inv(View())
      modifies this
      ensures Inv(View())
      ensures old(free) == [] ==> f == -1 && View() == old(View())
      ensures old(free) != [] ==> f == old(free)[0] && old(free)[0] < |old(page)| && View() == Grabbed(old(View()), p)
    {
      ghost var m := View();
      if free != [] {
        GrabbedKeepsInv(m, p, 0);
      }
      f := Kalloc();
      if f >= 0 {
        page := page[f := p];
      }
    }

    /** walkpgdir: the table that holds the entry of page v, or -1. */
    method Walk(d: nat, v: nat, alloc: bool) returns (t: int)
      requires Inv(View()) && d in dirs && v < PTES * PTES
      modifies this
      ensures Inv(View()) && Untouched(old(View()), View(), d, 0, 0) && Takens(View()) == old(Takens(View()))
      ensures t == -1 <==> old(Entry(page, d, v / PTES)) == Absent && (!alloc || old(free) == [])
      ensures t != -1 ==> Entry(page, d, v / PTES).To? && t == Entry(page, d, v / PTES).f && IsTable(page, t)
      ensures t == -1 || old(Entry(page, d, v / PTES)).To? ==> View() == old(View())
      ensures |free| == |old(free)| - if View() == old(View()) then 0 else 1
      ensures forall x: nat | x < PTES && x != v / PTES :: Entry(page, d, x) == old(Entry(page, d, x))
      ensures forall g | g in Takens(View()) :: page[g] == old(page)[g]
    {
      ghost var m := View();
      UntouchedSelf(m, d, 0, 0);
      TableHas(m, d, v / PTES);
      DirHas(m, d);
      match page[d].es[v / PTES] {
        case To(f, _, _) => t := f;
        case Absent =>
          if !alloc {
            return -1;
          }
          if free != [] {
            GrabbedKeepsInv(m, Entries(Blank()), d);
          }
          t := Grab(Entries(Blank()));
          if t >= 0 {
            ghost var n := View();
            HungKeepsInv(n, d, v / PTES, t);
            page := SetEntry(page, d, v / PTES, To(t, true, true));
            own := own[t := Table(d, v / PTES)];
            UntouchedThen(m, n, View(), d, 0, 0, 0, 0, 0, 0);
          }
      }
    }

    /** One turn of mappages. */
    method MapPage(d: nat, v: nat, f: nat, user: bool, write: bool) returns (r: MapResult)
      requires Inv(View()) && d in dirs && v < PTES * PTES
      requires v < USER_PAGES ==> f < |page| && own[f] == Taken && page[f].Bytes?
      modifies this
      ensures Inv(View()) && |page| == |old(page)|
      ensures r == Remap <==> old(Lookup(page, d, v)).To?
      ensures r == NoPage <==> old(Entry(page, d, v / PTES)) == Absent && old(free) == []
      ensures r != Mapped ==> View() == old(View())
      ensures r == Mapped ==> Untouched(old(View()), View(), d, v, v + 1) && Lookup(page, d, v) == To(f, user, write)
      ensures r == Mapped && v < USER_PAGES ==> page[f] == old(page[f]) && Takens(View()) == old(Takens(View())) - {f}
      ensures r == Mapped && v >= USER_PAGES ==> Takens(View()) == old(Takens(View()))
      ensures r == Mapped ==> |free| == |old(free)| - if old(Entry(page, d, v / PTES)) == Absent then 1 else 0
      ensures r == Mapped ==> Entry(page, d, v / PTES).To?
      ensures forall x: nat | x < PTES && x != v / PTES :: Entry(page, d, x) == old(Entry(page, d, x))
    {
      ghost var m := View();
      var t := Walk(d, v, true);
      if t < 0 {
        return NoPage;
      }
      ghost var n := View();
      assert v < USER_PAGES ==> f in Takens(m) && f in Takens(n);
      UntouchedLeaf(m, n, d, 0, 0, d, v);
      if page[t].es[v % PTES].To? {
        return Remap;
      }
      ghost var g, o := if v < USER_PAGES then f else t, if v < USER_PAGES then Leaf(d, v) else own[t];
      MappedStep(m, n, d, v, To(f, user, write), g, o);
      page := SetEntry(page, t, v % PTES, To(f, user, write));
      own := own[g := o];
      r := Mapped;
    }

    /** deallocuvm, a page that is there: kfree it, clear its entry. */
    method Drop(d: nat, v: nat, t: nat)
      requires Inv(View()) && d in dirs && v < USER_PAGES && Lookup(page, d, v).To? && t == Entry(page, d, v / PTES).f
      modifies this
      ensures Inv(View()) && Untouched(old(View()), View(), d, v, v + 1) && Takens(View()) == old(Takens(View()))
      ensures Lookup(page, d, v) == Absent && forall x: nat | x < PTES :: Entry(page, d, x) == old(Entry(page, d, x))
    {
      ghost var m := View();
      DroppedKeepsInv(m, d, v);
      var f := page[t].es[v % PTES].f;
      page := page[f := Link(freelist)];
      freelist := f;
      page := SetEntry(page, t, v % PTES, Absent);
      free, own := [f] + free, own[f := Spare];
      assert page == Dropped(m, d, v).page;
      assert own == Dropped(m, d, v).own;
    }

    /** deallocuvm. */
    method DeallocUvm(d: nat, oldsz: nat, newsz: nat) returns (r: nat)
      requires Inv(View()) && d in dirs && oldsz <= KERNBASE
      modifies this
      ensures Inv(View()) && Takens(View()) == old(Takens(View()))
      ensures r == if newsz >= oldsz then oldsz else newsz
      ensures newsz >= oldsz ==> View() == old(View())
      ensures Untouched(old(View()), View(), d, PagesFor(newsz), PagesFor(oldsz))
      ensures Empty(View(), d, PagesFor(newsz), PagesFor(oldsz))
      ensures forall x: nat | x < PTES :: Entry(page, d, x) == old(Entry(page, d, x))
    {
      ghost var m := View();
      UntouchedSelf(m, d, PagesFor(newsz), PagesFor(oldsz));
      if newsz >= oldsz {
        return oldsz;
      }
      var lo, hi := PagesFor(newsz), PagesFor(oldsz);
      var v := lo;
      while v < hi
        invariant lo <= v
        invariant Inv(View()) && Takens(View()) == Takens(m) && d in dirs
        invariant Untouched(m, View(), d, lo, hi) && Empty(View(), d, lo, v)
        invariant forall x: nat | x < PTES :: Entry(page, d, x) == Entry(m.page, d, x)
      {
        ghost var n := View();
        var t := Walk(d, v, false);
        if t < 0 {
          EmptySlot(View(), d, lo, v);
          v := (v / PTES + 1) * PTES - 1;
        } else if page[t].es[v % PTES].To? {
          Drop(d, v, t);
          EmptyNext(n, View(), d, lo, v);
          UntouchedThen(m, n, View(), d, lo, hi, v, v + 1, lo, hi);
        }
        v := v + 1;
      }
      r := newsz;
    }

    /** freevm. */
    method FreeVm(d: nat)
      requires Inv(View()) && d in dirs
      modifies this
      ensures Inv(View()) && Takens(View()) == old(Takens(View())) && dirs == old(dirs) - {d}
      ensures Kept(old(View()), View(), dirs)
    {
      ghost var m := View();
      var r := DeallocUvm(d, KERNBASE, 0);
      ghost var n := View();
      DisbandedKeepsInv(n, d);
      KeptElsewhere(m, n, d, 0, USER_PAGES, m.dirs - {d});
      own, dirs := Disbanded(n, d).own, dirs - {d};
      FreeTables(d, m, n);
    }

    /** The end of freevm: n is the state in which the user half of d is empty. */
    method FreeTables(d: nat, ghost m: Mem, ghost n: Mem)
      requires Inv(n) && d in n.dirs && NoLeaves(n, d) && View() == Disbanded(n, d) && Kept(m, n, n.dirs - {d})
      modifies this
      ensures Inv(View()) && Takens(View()) == Takens(n) && dirs == n.dirs - {d} && Kept(m, View(), dirs)
    {
      DisbandedKeepsInv(n, d);
      DirHas(n, d);
      ghost var s := dirs;
      KeptSame(m, n, View(), s);
      for i := 0 to PTES
        invariant Inv(View()) && dirs == s && |page| == |n.page| && page[d] == n.page[d] && Kept(m, View(), s)
        invariant Takens(View()) == Takens(n) + {d} + TablesFrom(n, d, i)
      {
        TablesStep(n, d, i);
        if page[d].es[i].To? {
          var f := page[d].es[i].f;
          assert f in Takens(View());
          PushedKept(m, View(), f, s);
          PushedKeepsInv(View(), f);
          Kfree(f);
        }
      }
      TablesDone(n, d);
      assert d in Takens(View());
      PushedKept(m, View(), d, s);
      PushedKeepsInv(View(), d);
      Kfree(d);
    }

    /** kalloc, memset or memmove, and mappages of that one page. */
    method MapNew(d: nat, v: nat, p: Page, user: bool, write: bool) returns (r: MapResult, f: int)
      requires Inv(View()) && d in dirs && v < USER_PAGES && p.Bytes?
      modifies this
      ensures Inv(View())
      ensures r == NoPage <==> |old(free)| < if old(Entry(page, d, v / PTES)) == Absent then 2 else 1
      ensures r == Remap <==> old(Lookup(page, d, v)).To? && old(free) != []
      ensures r == Mapped ==> Untouched(old(View()), View(), d, v, v + 1) && Takens(View()) == old(Takens(View()))
      ensures r == Mapped ==> Holds(View(), d, v, Cell(user, write, p)) && Entry(page, d, v / PTES).To?
      ensures r == Mapped ==> |free| == |old(free)| - if old(Entry(page, d, v / PTES)) == Absent then 2 else 1
      ensures r != Mapped ==> Untouched(old(View()), View(), d, 0, 0)
      ensures r != Mapped && f < 0 ==> View() == old(View())
      ensures r != Mapped && f >= 0 ==> f < |page| && own[f] == Taken && Takens(View()) - {f} == old(Takens(View()))
      ensures r == Remap ==> f >= 0
      ensures forall x: nat | x < PTES && x != v / PTES :: Entry(page, d, x) == old(Entry(page, d, x))
    {
      ghost var m := View();
      UntouchedSelf(m, d, 0, 0);
      if free != [] {
        GrabbedKeepsInv(m, p, d);
      }
      f := Grab(p);
      if f < 0 {
        return NoPage, f;
      }
      ghost var n := View();
      UntouchedLeaf(m, n, d, 0, 0, d, v);
      r := MapPage(d, v, f, user, write);
      if r == Mapped {
        UntouchedThen(m, n, View(), d, 0, 0, v, v + 1, v, v + 1);
      }
    }

    /** allocuvm; `ok` is false where mappages panics, at a page that is mapped already. */
    method AllocUvm(d: nat, oldsz: nat, newsz: nat) returns (ok: bool, r: nat)
      requires Inv(View()) && d in dirs && oldsz <= KERNBASE
      modifies this
      ensures ok ==> Inv(View()) && Takens(View()) == old(Takens(View())) && dirs == old(dirs)
      ensures newsz >= KERNBASE || newsz < oldsz ==>
        ok && View() == old(View()) && r == if newsz >= KERNBASE then 0 else oldsz
      ensures oldsz <= newsz < KERNBASE ==>
        var lo, hi := PagesFor(oldsz), PagesFor(newsz);
        && ok == !Remaps(old(View()), d, lo, hi)
        && (ok ==> Untouched(old(View()), View(), d, lo, hi))
        && (ok ==> if Empty(old(View()), d, lo, hi) && |old(free)| >= Needed(old(View()), d, lo, hi)
                   then r == newsz && Added(old(View()), View(), d, lo, hi)
                   else r == 0 && Empty(View(), d, lo, hi))
    {
      if newsz >= KERNBASE {
        return true, 0;
      }
      if newsz < oldsz {
        return true, oldsz;
      }
      ghost var m := View();
      var lo, hi := PagesFor(oldsz), PagesFor(newsz);
      GrowingStart(m, d, lo);
      var v := lo;
      while v < hi
        invariant lo <= v <= hi && Growing(m, View(), d, lo, v)
      {
        ghost var n := View();
        var t, f := MapNew(d, v, ZeroPage(), true, true);
        if t == Remap {
          GrowingRemap(m, n, d, lo, v, hi);
          return false, 0;
        }
        if t == NoPage {
          GrowingIs(m, n, d, lo, v);
          GrowingShort(m, n, d, lo, v, hi);
          GiveUp(d, oldsz, newsz, f, m, n);
          return true, 0;
        }
        GrowingNext(m, n, View(), d, lo, v);
        v := v + 1;
      }
      GrowingEnd(m, View(), d, lo, hi);
      return true, newsz;
    }

    /** allocuvm out of memory: the pages mapped so far go back, and the one not mapped. */
    method GiveUp(d: nat, oldsz: nat, newsz: nat, f: int, ghost m: Mem, ghost n: Mem)
      requires Inv(View()) && d in dirs && oldsz <= newsz < KERNBASE && d in m.dirs
      requires Untouched(m, n, d, PagesFor(oldsz), PagesFor(newsz)) && Untouched(n, View(), d, 0, 0)
      requires if f < 0 then Takens(View()) == Takens(m) else f < |page| && own[f] == Taken && Takens(View()) - {f} == Takens(m)
      modifies this
      ensures Inv(View()) && Takens(View()) == Takens(m) && Untouched(m, View(), d, PagesFor(oldsz), PagesFor(newsz))
      ensures Empty(View(), d, PagesFor(oldsz), PagesFor(newsz))
    {
      ghost var lo, hi := PagesFor(oldsz), PagesFor(newsz);
      UntouchedThen(m, n, View(), d, lo, hi, 0, 0, lo, hi);
      ghost var o := View();
      var r := DeallocUvm(d, newsz, oldsz);
      UntouchedThen(m, o, View(), d, lo, hi, lo, hi, lo, hi);
      if f >= 0 {
        ghost var u := View();
        assert f in Takens(o) && f in Takens(u);
        PushedUntouched(u, f, d);
        Kfree(f);
        UntouchedThen(m, u, View(), d, lo, hi, 0, 0, lo, hi);
        EmptyAfter(u, View(), d, 0, 0, lo, hi);
      }
    }

    /** mappages of n kernel pages from v on, to the physical pages from f on. */
    method MapKernel(d: nat, v: nat, n: nat, f: nat, write: bool) returns (ok: bool)
      requires Inv(View()) && d in dirs && USER_PAGES <= v && v + n <= PTES * PTES && DataPage(data)
      requires KernelUpTo(View(), data, d, v) && SlotsInUse(View(), d) == KernelSlots(v)
      requires forall w: nat | v <= w < v + n :: KernelPte(data, w) == To(f + (w - v), false, write)
      modifies this
      ensures Inv(View()) && Takens(View()) == old(Takens(View())) && dirs == old(dirs)
      ensures Untouched(old(View()), View(), d, USER_PAGES, PTES * PTES)
      ensures |free| + |SlotsInUse(View(), d)| == |old(free)| + |old(SlotsInUse(View(), d))|
      ensures ok ==> KernelUpTo(View(), data, d, v + n) && SlotsInUse(View(), d) == KernelSlots(v + n)
      ensures !ok ==> free == [] && |SlotsInUse(View(), d)| < KERNEL_PAGES - 1
    {
      ghost var m := View();
      UntouchedSelf(m, d, USER_PAGES, PTES * PTES);
      for k := 0 to n
        invariant Inv(View()) && Takens(View()) == Takens(m) && d in dirs
        invariant Untouched(m, View(), d, USER_PAGES, PTES * PTES)
        invariant KernelUpTo(View(), data, d, v + k) && SlotsInUse(View(), d) == KernelSlots(v + k)
        invariant |free| + |SlotsInUse(View(), d)| == |m.free| + |SlotsInUse(m, d)|
      {
        ghost var o := View();
        assert KernelPte(data, v + k) == To(f + k, false, write);
        KernelSlotOf(data, v + k);
        var r := MapPage(d, v + k, f + k, false, write);
        if r != Mapped {
          KernelSlotsGrow(v + k);
          return false;
        }
        UntouchedThen(m, o, View(), d, USER_PAGES, PTES * PTES, v + k, v + k + 1, USER_PAGES, PTES * PTES);
        KernelNext(o, View(), data, d, v + k);
        SlotsInUseNext(o, View(), d, v + k);
      }
      ok := true;
    }

    /** The loop of setupkvm over kmap, on an empty directory. */
    method MapRanges(d: nat) returns (ok: bool)
      requires Inv(View()) && DataPage(data) && d in dirs
      requires SlotsInUse(View(), d) == {} && forall v: nat | v < PTES * PTES :: Lookup(page, d, v) == Absent
      modifies this
      ensures Inv(View()) && Takens(View()) == old(Takens(View())) && dirs == old(dirs)
      ensures Untouched(old(View()), View(), d, USER_PAGES, PTES * PTES)
      ensures |free| + |SlotsInUse(View(), d)| == |old(free)|
      ensures ok ==> KernelUpTo(View(), data, d, PTES * PTES) && SlotsInUse(View(), d) == KernelSlots(PTES * PTES)
      ensures !ok ==> free == [] && |SlotsInUse(View(), d)| < KERNEL_PAGES - 1
    {
      ghost var m := View();
      UntouchedSelf(m, d, USER_PAGES, PTES * PTES);
      assert KernelSlots(0x80000) == {};
      for k := 0 to 4
        invariant Inv(View()) && Takens(View()) == Takens(m) && d in dirs
        invariant Untouched(m, View(), d, USER_PAGES, PTES * PTES)
        invariant KernelUpTo(View(), data, d, Start(data, k)) && SlotsInUse(View(), d) == KernelSlots(Start(data, k))
        invariant |free| + |SlotsInUse(View(), d)| == |m.free|
      {
        ghost var o := View();
        var r := Kmap(data)[k];
        KmapIs(data, k);
        ok := MapKernel(d, r.virt, r.count, r.phys, r.write);
        UntouchedThen(m, o, View(), d, USER_PAGES, PTES * PTES, USER_PAGES, PTES * PTES, USER_PAGES, PTES * PTES);
        if !ok {
          return;
        }
        KernelGap(View(), data, d, r.virt + r.count, Start(data, k + 1));
      }
      ok := true;
    }

    /** setupkvm: a directory with the kernel half of kmap, or -1. */
    method SetupKvm() returns (d: int)
      requires Inv(View()) && DataPage(data)
      modifies this
      ensures Inv(View()) && Takens(View()) == old(Takens(View()))
      ensures d >= 0 <==> |old(free)| >= KERNEL_PAGES
      ensures d >= 0 ==> d !in old(dirs) && dirs == old(dirs) + {d as nat} && |free| == |old(free)| - KERNEL_PAGES
      ensures d >= 0 ==> KernelUpTo(View(), data, d, PTES * PTES) && SlotsInUse(View(), d) == KernelSlots(PTES * PTES)
      ensures d >= 0 ==> Kept(old(View()), View(), old(dirs)) && Empty(View(), d, 0, USER_PAGES)
      ensures d < 0 ==> dirs == old(dirs) && Kept(old(View()), View(), dirs)
      ensures d < 0 ==> own == old(own) && multiset(free) == multiset(old(free))
    {
      ghost var m := View();
      KeptSelf(m, m);
      KernelSlotsSize();
      if free != [] {
        FoundedFresh(m);
      }
      d := Grab(Entries(Blank()));
      if d < 0 {
        return;
      }
      own, dirs := own[d := Dir], dirs + {d as nat};
      ghost var n := View();
      var ok := MapRanges(d);
      KeptElsewhere(n, View(), d, USER_PAGES, PTES * PTES, m.dirs);
      KeptThen(m, n, View(), m.dirs);
      EmptyAfter(n, View(), d, USER_PAGES, PTES * PTES, 0, USER_PAGES);
      if !ok {
        ghost var o := View();
        FreeVm(d);
        KeptThen(m, o, View(), m.dirs);
        AllBack(m, View());
        d := -1;
      }
    }

    /** One turn of copyuvm's loop: Remap stands for a page that is missing. */
    method CopyPage(d: nat, c: nat, v: nat, ghost m: Mem, ghost n: Mem, ghost hi: nat) returns (k: MapResult, f: int)
      requires Copying(m, n, View(), d, c, v, hi) && v < hi <= USER_PAGES && d in m.dirs && c !in m.dirs && Kept(m, n, m.dirs)
      requires n.dirs == dirs == m.dirs + {c} && |n.free| == |m.free| - KERNEL_PAGES && SlotsInUse(n, c) == KernelSlots(PTES * PTES)
      modifies this
      ensures k == Remap ==> Gap(m, d, hi)
      ensures k == Mapped ==> Copying(m, n, View(), d, c, v + 1, hi) && dirs == old(dirs)
      ensures k == NoPage ==> !Gap(m, d, hi) && |m.free| < CopyCost(hi) && Inv(View()) && dirs == old(dirs)
      ensures k == NoPage ==> Untouched(n, old(View()), c, 0, hi) && Untouched(old(View()), View(), c, 0, 0)
      ensures k == NoPage ==>
        if f < 0 then Takens(View()) == Takens(m) else f < |page| && own[f] == Taken && Takens(View()) - {f} == Takens(m)
    {
      ghost var o := View();
      CopyingSource(m, n, o, d, c, v, hi);
      CopyingIs(m, n, o, d, c, v, hi);
      var t := Walk(d, v, false);
      if t < 0 || page[t].es[v % PTES] == Absent {
        CopyingGap(m, n, o, d, c, v, hi);
        return Remap, -1;
      }
      var e := page[t].es[v % PTES];
      k, f := MapNew(c, v, page[e.f], e.user, e.write);
      if k == Mapped {
        CopyingNext(m, n, o, View(), d, c, v, hi);
      } else {
        CopyingShort(m, n, o, d, c, v, hi);
        CopyingNoGap(m, n, o, d, c, v, hi);
        NeededBlank(n, c, hi);
      }
    }

    /** copyuvm. */
    method CopyUvm(d: nat, sz: nat) returns (r: CopyResult)
      requires Inv(View()) && DataPage(data) && d in dirs && sz <= KERNBASE
      modifies this
      ensures r == Panicked <==> Gap(old(View()), d, PagesFor(sz))
      ensures r != Panicked ==> Inv(View()) && Takens(View()) == old(Takens(View())) && Kept(old(View()), View(), old(dirs))
      ensures r == NoMemory ==> dirs == old(dirs) && own == old(own) && multiset(free) == multiset(old(free))
      ensures r == NoMemory ==> |old(free)| < CopyCost(PagesFor(sz))
      ensures r.Copy? ==> r.c !in old(dirs) && dirs == old(dirs) + {r.c} && |old(free)| == |free| + CopyCost(PagesFor(sz))
      ensures r.Copy? ==> Copied(old(View()), d, View(), r.c, PagesFor(sz)) && Empty(View(), r.c, PagesFor(sz), USER_PAGES)
      ensures r.Copy? ==> KernelUpTo(View(), data, r.c, PTES * PTES)
    {
      ghost var m := View();
      var c := SetupKvm();
      var hi := PagesFor(sz);
      if c < 0 {
        return NoMemory;
      }
      ghost var n := View();
      UntouchedSelf(n, c, 0, hi);
      CopyingIs(m, n, n, d, c, 0, hi);
      var v := 0;
      while v < hi
        invariant v <= hi && Copying(m, n, View(), d, c, v, hi) && dirs == n.dirs
      {
        ghost var o := View();
        var k, f := CopyPage(d, c, v, m, n, hi);
        if k == Remap {
          return Panicked;
        }
        if k == NoPage {
          AbandonCopy(c, f, m, n, o, hi);
          return NoMemory;
        }
        v := v + 1;
      }
      CopyEnd(m, n, View(), d, c, hi, data);
      r := Copy(c);
    }

    /** The bad exit of copyuvm. */
    method AbandonCopy(c: nat, f: int, ghost m: Mem, ghost n: Mem, ghost o: Mem, ghost hi: nat)
      requires Inv(View()) && Inv(m) && c !in m.dirs && dirs == m.dirs + {c} && n.dirs == dirs
      requires Kept(m, n, m.dirs) && Untouched(n, o, c, 0, hi) && Untouched(o, View(), c, 0, 0)
      requires if f < 0 then Takens(View()) == Takens(m) else f < |page| && own[f] == Taken && Takens(View()) - {f} == Takens(m)
      modifies this
      ensures Inv(View()) && dirs == m.dirs && Takens(View()) == Takens(m) && Kept(m, View(), m.dirs)
      ensures own == m.own && multiset(free) == multiset(m.free)
    {
      KeptElsewhere(n, o, c, 0, hi, m.dirs);
      KeptElsewhere(o, View(), c, 0, 0, m.dirs);
      KeptThen(m, n, o, m.dirs);
      KeptThen(m, o, View(), m.dirs);
      if f >= 0 {
        PushedKept(m, View(), f, m.dirs);
        PushedKeepsInv(View(), f);
        Kfree(f);
      }
      ghost var u := View();
      FreeVm(c);
      assert dirs == m.dirs;
      KeptThen(m, u, View(), m.dirs);
      AllBack(m, View());
    }

    /** clearpteu. */
    method ClearPteu(d: nat, v: nat)
      requires Inv(View()) && d in dirs && v < USER_PAGES && Lookup(page, d, v).To?
      modifies this
      ensures Inv(View()) && Takens(View()) == old(Takens(View())) && Untouched(old(View()), View(), d, v, v + 1)
      ensures Lookup(page, d, v) == old(Lookup(page, d, v)).(user := false)
      ensures var f := Lookup(page, d, v).f; f < |page| == |old(page)| && page[f] == old(page)[f]
    {
      ghost var m := View();
      var t := Walk(d, v, false);
      var e := page[t].es[v % PTES];
      LeafHas(m, d, v);
      PlacedKeepsInv(m, d, v, e.(user := false), e.f, Leaf(d, v));
      page := SetEntry(page, t, v % PTES, e.(user := false));
      assert own == own[e.f := Leaf(d, v)];
    }
  }
}
