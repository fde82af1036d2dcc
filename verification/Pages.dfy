/** Physical pages and who has them: the free list of kalloc.c, and the two-level page tables of vm.c. */
module Pages {
  import opened Blocks
  import opened Params

  const PTES := 1024            // entries of a directory or a table
  const USER_TABLES := 512      // directory slots below KERNBASE
  const USER_PAGES := 524288    // pages below KERNBASE

  /** A directory or table entry: not present, or the page it points to and its permissions. */
  datatype Pte = Absent | To(f: nat, user: bool, write: bool)

  /** A page as its holder uses it: a link of the free list, 1024 entries, or bytes. */
  datatype Page = Link(next: int) | Entries(es: seq<Pte>) | Bytes(data: seq<byte>)

  /** Who has a page: the free list; somebody in the kernel who got it from kalloc; a page directory;
      slot x of directory d; user page v of directory d. */
  datatype Owner = Spare | Taken | Dir | Table(d: nat, x: nat) | Leaf(d: nat, v: nat)

  /** `free` lists the free pages from kmem.freelist on, and `dirs` the directories in use. */
  datatype Mem = Mem(page: seq<Page>, freelist: int, free: seq<nat>, own: seq<Owner>, dirs: set<nat>)

  /** A page of entries as memset(…, 0, PGSIZE) leaves it. */
  function Blank(): (es: seq<Pte>)
    ensures |es| == PTES && forall i | 0 <= i < PTES :: es[i] == Absent
  {
    seq(PTES, _ => Absent)
  }

  // ----- Lookup

  function Entry(page: seq<Page>, f: nat, i: nat): Pte {
    if f < |page| && page[f].Entries? && i < |page[f].es| then page[f].es[i] else Absent
  }

  /** The entry walkpgdir finds for user page v. */
  function Lookup(page: seq<Page>, d: nat, v: nat): Pte {
    match Entry(page, d, v / PTES)
    case Absent => Absent
    case To(t, _, _) => Entry(page, t, v % PTES)
  }

  predicate IsTable(page: seq<Page>, f: nat) {
    f < |page| && page[f].Entries? && |page[f].es| == PTES
  }

  function SetEntry(page: seq<Page>, f: nat, i: nat, e: Pte): (r: seq<Page>)
    requires IsTable(page, f) && i < PTES
    ensures |r| == |page|
  {
    page[f := Entries(page[f].es[i := e])]
  }

  // ----- Every page in one place

  function At(s: seq<nat>, k: nat): int { if k < |s| then s[k] else -1 }

  predicate ListOk(m: Mem) {
    && m.freelist == At(m.free, 0) && |m.own| == |m.page|
    && (forall k | 0 <= k < |m.free| :: m.free[k] < |m.page| && m.own[m.free[k]] == Spare && m.page[m.free[k]] == Link(At(m.free, k + 1)))
    && (forall i, j | 0 <= i < j < |m.free| :: m.free[i] != m.free[j])
  }

  predicate PageOk(m: Mem, f: nat)
    requires f < |m.own| == |m.page|
  {
    match m.own[f]
    case Spare => f in m.free
    case Taken => true
    case Dir => f in m.dirs
    case Table(d, x) => d in m.dirs && x < PTES && Entry(m.page, d, x).To? && Entry(m.page, d, x).f == f
    case Leaf(d, v) =>
      d in m.dirs && v < USER_PAGES && Lookup(m.page, d, v).To? && Lookup(m.page, d, v).f == f && m.page[f].Bytes?
  }

  predicate DirOk(m: Mem, d: nat)
    requires |m.own| == |m.page|
  {
    IsTable(m.page, d) && m.own[d] == Dir
  }

  predicate TableOk(m: Mem, d: nat, x: nat)
    requires |m.own| == |m.page|
  {
    var e := Entry(m.page, d, x);
    e.To? ==> IsTable(m.page, e.f) && m.own[e.f] == Table(d, x)
  }

  predicate LeafOk(m: Mem, d: nat, v: nat)
    requires |m.own| == |m.page|
  {
    var e := Lookup(m.page, d, v);
    e.To? ==> e.f < |m.page| && m.own[e.f] == Leaf(d, v)
  }

  ghost predicate TreesOk(m: Mem)
    requires |m.own| == |m.page|
  {
    && (forall f: nat | f < |m.page| :: PageOk(m, f))
    && (forall d | d in m.dirs :: DirOk(m, d))
    && (forall d, x: nat | d in m.dirs && x < PTES :: TableOk(m, d, x))
    && (forall d, v: nat | d in m.dirs && v < USER_PAGES :: LeafOk(m, d, v))
  }

  /** Every page is free, or taken, or in exactly one place of exactly one directory. */
  ghost predicate Inv(m: Mem) {
    |m.own| == |m.page| && InvBehind(m, 1)
  }

  ghost predicate InvBehind(m: Mem, turns: nat)
    requires |m.own| == |m.page|
  {
    if turns == 0 then ListOk(m) && TreesOk(m) else InvBehind(m, turns - 1)
  }

  lemma InvIs(m: Mem)
    requires |m.own| == |m.page|
    ensures Inv(m) == (ListOk(m) && TreesOk(m))
  {
    assert InvBehind(m, 1) == InvBehind(m, 0);
  }

  lemma ListHas(m: Mem)
    requires Inv(m)
    ensures ListOk(m)
  {
    InvIs(m);
  }

  lemma PageHas(m: Mem, f: nat)
    requires Inv(m) && f < |m.page|
    ensures PageOk(m, f)
  {
    InvIs(m);
  }

  lemma DirHas(m: Mem, d: nat)
    requires Inv(m) && d in m.dirs
    ensures DirOk(m, d)
  {
    InvIs(m);
  }

  lemma TableHas(m: Mem, d: nat, x: nat)
    requires Inv(m) && d in m.dirs && x < PTES
    ensures TableOk(m, d, x)
  {
    InvIs(m);
  }

  lemma LeafHas(m: Mem, d: nat, v: nat)
    requires Inv(m) && d in m.dirs && v < USER_PAGES
    ensures LeafOk(m, d, v)
  {
    InvIs(m);
  }

  /** The pages kalloc handed out that are not in any address space. */
  ghost function Takens(m: Mem): set<nat> {
    set f: nat | f < |m.own| && m.own[f] == Taken
  }

  /** No two entries of any two address spaces share a page. */
  lemma OnePlace(m: Mem, d: nat, v: nat, e: nat, w: nat)
    requires Inv(m) && d in m.dirs && e in m.dirs && v < USER_PAGES && w < USER_PAGES
    requires Lookup(m.page, d, v).To? && Lookup(m.page, e, w).To? && Lookup(m.page, d, v).f == Lookup(m.page, e, w).f
    ensures d == e && v == w
  {
    LeafHas(m, d, v);
    LeafHas(m, e, w);
  }

  // ----- The changes vm.c and kalloc.c make

  /** kalloc: the first free page. */
  function Popped(m: Mem): Mem
    requires m.free != [] && m.free[0] < |m.own|
  {
    m.(freelist := At(m.free, 1), free := m.free[1..], own := m.own[m.free[0] := Taken])
  }

  /** kfree: onto the list. */
  function Pushed(m: Mem, f: nat): Mem
    requires f < |m.page| && f < |m.own|
  {
    m.(page := m.page[f := Link(m.freelist)], freelist := f, free := [f] + m.free, own := m.own[f := Spare])
  }

  /** memset, memmove into a page just allocated. */
  function Filled(m: Mem, f: nat, p: Page): Mem
    requires f < |m.page|
  {
    m.(page := m.page[f := p])
  }

  lemma PoppedList(m: Mem)
    requires ListOk(m) && m.free != []
    ensures ListOk(Popped(m))
  {
    var t := Popped(m);
    forall k | 0 <= k < |t.free|
      ensures t.free[k] < |t.page| && t.own[t.free[k]] == Spare && t.page[t.free[k]] == Link(At(t.free, k + 1))
    {
      assert t.free[k] == m.free[k + 1];
    }
  }

  lemma PoppedKeepsInv(m: Mem)
    requires Inv(m) && m.free != []
    ensures m.free[0] < |m.page| && m.free[0] !in Takens(m)
    ensures Inv(Popped(m)) && Takens(Popped(m)) == Takens(m) + {m.free[0]}
  {
    ListHas(m);
    var t, f := Popped(m), m.free[0];
    PoppedList(m);
    forall g: nat | g < |t.page| && t.own[g] == Spare
      ensures g in t.free
    {
      PageHas(m, g);
      BehindFirst(m.free, g);
    }
    SameTables(m, t, f);
  }

  lemma BehindFirst(s: seq<nat>, g: nat)
    requires g in s && g != s[0]
    ensures g in s[1..]
  {
    var k :| 0 <= k < |s| && s[k] == g;
    assert s[1..][k - 1] == g;
  }

  /** A page that is no directory, table or leaf does not matter to lookups. */
  lemma LookupFrame(m: Mem, page: seq<Page>, f: nat, d: nat, x: nat)
    requires Inv(m) && d in m.dirs && f < |m.page| == |page| && (m.own[f] == Taken || m.own[f] == Spare)
    requires forall g: nat | g < |page| && g != f :: page[g] == m.page[g]
    ensures x < PTES ==> Entry(page, d, x) == Entry(m.page, d, x)
    ensures x < PTES * PTES ==> Lookup(page, d, x) == Lookup(m.page, d, x)
  {
    DirHas(m, d);
    if x < PTES * PTES {
      TableHas(m, d, x / PTES);
    }
  }

  /** The tables and leaves are those of m, and so are their owners. */
  lemma SameTables(m: Mem, t: Mem, f: nat)
    requires Inv(m) && ListOk(t) && t.dirs == m.dirs && |t.page| == |m.page| && f < |m.page|
    requires (m.own[f] == Taken || m.own[f] == Spare) && (t.own[f] == Taken || t.own[f] == Spare)
    requires forall g: nat | g < |t.page| && g != f :: t.page[g] == m.page[g] && t.own[g] == m.own[g]
    requires forall g: nat | g < |t.page| && t.own[g] == Spare :: g in t.free
    ensures Inv(t)
  {
    forall d, x: nat | d in m.dirs && x < USER_PAGES
      ensures x < PTES ==> Entry(t.page, d, x) == Entry(m.page, d, x)
      ensures Lookup(t.page, d, x) == Lookup(m.page, d, x)
    {
      LookupFrame(m, t.page, f, d, x);
    }
    forall g: nat | g < |t.page|
      ensures PageOk(t, g)
    {
      PageHas(m, g);
    }
    forall d | d in t.dirs
      ensures DirOk(t, d)
    {
      DirHas(m, d);
    }
    forall d, x: nat | d in t.dirs && x < PTES
      ensures TableOk(t, d, x)
    {
      TableHas(m, d, x);
    }
    forall d, v: nat | d in t.dirs && v < USER_PAGES
      ensures LeafOk(t, d, v)
    {
      LeafHas(m, d, v);
    }
    InvIs(t);
  }

  lemma PushedList(m: Mem, f: nat)
    requires ListOk(m) && f < |m.page| && m.own[f] == Taken
    ensures ListOk(Pushed(m, f))
  {
    var t := Pushed(m, f);
    forall k | 0 <= k < |t.free|
      ensures t.free[k] < |t.page| && t.own[t.free[k]] == Spare && t.page[t.free[k]] == Link(At(t.free, k + 1))
    {
      if k > 0 {
        assert t.free[k] == m.free[k - 1];
      }
    }
  }

  lemma PushedKeepsInv(m: Mem, f: nat)
    requires Inv(m) && f < |m.page| && m.own[f] == Taken
    ensures Inv(Pushed(m, f)) && Takens(Pushed(m, f)) == Takens(m) - {f}
  {
    var t := Pushed(m, f);
    ListHas(m);
    PushedList(m, f);
    SpareListed(m);
    assert t.free == [f] + m.free;
    forall g: nat | g < |t.page| && t.own[g] == Spare
      ensures g in t.free
    {
      assert g == f || g in m.free;
    }
    SameTables(m, t, f);
  }

  lemma SpareListed(m: Mem)
    requires Inv(m)
    ensures forall g: nat | g < |m.page| && m.own[g] == Spare :: g in m.free
  {
    forall g: nat | g < |m.page| && m.own[g] == Spare
      ensures g in m.free
    {
      PageHas(m, g);
    }
  }

  lemma FilledKeepsInv(m: Mem, f: nat, p: Page)
    requires Inv(m) && f < |m.page| && m.own[f] == Taken
    ensures Inv(Filled(m, f, p)) && Takens(Filled(m, f, p)) == Takens(m)
  {
    ListHas(m);
    SpareListed(m);
    SameTables(m, Filled(m, f, p), f);
  }

  // ----- Entries

  /** Setting entry i of the table at slot x of d changes the lookup of that page of d alone. */
  lemma LookupAfterSet(m: Mem, d: nat, x: nat, i: nat, e: Pte, b: nat, v: nat)
    requires Inv(m) && d in m.dirs && b in m.dirs && x < PTES && i < PTES && v < PTES * PTES
    requires Entry(m.page, d, x).To? && IsTable(m.page, Entry(m.page, d, x).f)
    ensures var p := SetEntry(m.page, Entry(m.page, d, x).f, i, e);
      && (v < PTES ==> Entry(p, b, v) == Entry(m.page, b, v))
      && Lookup(p, b, v) == if b == d && v == x * PTES + i then e else Lookup(m.page, b, v)
  {
    TableHas(m, d, x);
    DirHas(m, b);
    TableHas(m, b, v / PTES);
    assert v == v / PTES * PTES + v % PTES;
  }

  /** Hanging an empty table at a free slot of d changes no lookup. */
  lemma LookupAfterHang(m: Mem, d: nat, x: nat, f: nat, b: nat, v: nat)
    requires Inv(m) && d in m.dirs && b in m.dirs && x < PTES && v < PTES * PTES && IsTable(m.page, d)
    requires f < |m.page| && m.page[f] == Entries(Blank()) && m.own[f] == Taken && Entry(m.page, d, x) == Absent
    ensures var p := SetEntry(m.page, d, x, To(f, true, true));
      && (v < PTES ==> Entry(p, b, v) == if b == d && v == x then To(f, true, true) else Entry(m.page, b, v))
      && Lookup(p, b, v) == Lookup(m.page, b, v)
  {
    DirHas(m, b);
    DirHas(m, d);
    TableHas(m, b, v / PTES);
  }

  // ----- Address spaces

  /** Page v of b is as it was: the same entry and, in the user half, the same bytes. */
  predicate SameLeaf(m: Mem, t: Mem, b: nat, v: nat) {
    var e := Lookup(m.page, b, v);
    && Lookup(t.page, b, v) == e
    && (v < USER_PAGES && e.To? ==> e.f < |m.page| && e.f < |t.page| && t.page[e.f] == m.page[e.f])
  }

  /** Slot x of directory b is as it was, or b is d and a table was hung there. */
  predicate SameSlot(m: Mem, t: Mem, b: nat, x: nat, d: nat) {
    Entry(t.page, b, x) == Entry(m.page, b, x) || (b == d && Entry(m.page, b, x) == Absent)
  }

  ghost predicate Alike(m: Mem, t: Mem, d: nat, lo: nat, hi: nat) {
    && (forall b, x: nat | b in m.dirs && x < PTES :: SameSlot(m, t, b, x, d))
    && (forall b, v: nat | b in m.dirs && v < PTES * PTES && !(b == d && lo <= v < hi) :: SameLeaf(m, t, b, v))
  }

  /** Every address space is as it was, but pages lo up to hi of d and new tables of d. */
  ghost predicate Untouched(m: Mem, t: Mem, d: nat, lo: nat, hi: nat) {
    t.dirs == m.dirs && |t.page| == |m.page| && AlikeBehind(m, t, d, lo, hi, 1)
  }

  ghost predicate AlikeBehind(m: Mem, t: Mem, d: nat, lo: nat, hi: nat, turns: nat) {
    if turns == 0 then Alike(m, t, d, lo, hi) else AlikeBehind(m, t, d, lo, hi, turns - 1)
  }

  lemma UntouchedIs(m: Mem, t: Mem, d: nat, lo: nat, hi: nat)
    ensures Untouched(m, t, d, lo, hi) == (t.dirs == m.dirs && |t.page| == |m.page| && Alike(m, t, d, lo, hi))
  {
    assert AlikeBehind(m, t, d, lo, hi, 1) == AlikeBehind(m, t, d, lo, hi, 0);
  }

  lemma UntouchedSelf(m: Mem, d: nat, lo: nat, hi: nat)
    requires Inv(m)
    ensures Untouched(m, m, d, lo, hi)
  {
    forall b, v: nat | b in m.dirs && v < PTES * PTES
      ensures SameLeaf(m, m, b, v)
    {
      if v < USER_PAGES {
        LeafHas(m, b, v);
      }
    }
    UntouchedIs(m, m, d, lo, hi);
  }

  lemma UntouchedLeaf(m: Mem, t: Mem, d: nat, lo: nat, hi: nat, b: nat, v: nat)
    requires Untouched(m, t, d, lo, hi) && b in m.dirs && v < PTES * PTES && !(b == d && lo <= v < hi)
    ensures SameLeaf(m, t, b, v)
  {
    UntouchedIs(m, t, d, lo, hi);
  }

  lemma UntouchedSlot(m: Mem, t: Mem, d: nat, lo: nat, hi: nat, b: nat, x: nat)
    requires Untouched(m, t, d, lo, hi) && b in m.dirs && x < PTES
    ensures SameSlot(m, t, b, x, d)
  {
    UntouchedIs(m, t, d, lo, hi);
  }

  /** Two changes of d in a row, to pages between a and z. */
  lemma UntouchedThen(m: Mem, t: Mem, u: Mem, d: nat, lo: nat, hi: nat, lo1: nat, hi1: nat, a: nat, z: nat)
    requires Untouched(m, t, d, lo, hi) && Untouched(t, u, d, lo1, hi1)
    requires lo < hi ==> a <= lo && hi <= z
    requires lo1 < hi1 ==> a <= lo1 && hi1 <= z
    ensures Untouched(m, u, d, a, z)
  {
    forall b, x: nat | b in m.dirs && x < PTES
      ensures SameSlot(m, u, b, x, d)
    {
      UntouchedSlot(m, t, d, lo, hi, b, x);
      UntouchedSlot(t, u, d, lo1, hi1, b, x);
    }
    forall b, v: nat | b in m.dirs && v < PTES * PTES && !(b == d && a <= v < z)
      ensures SameLeaf(m, u, b, v)
    {
      UntouchedLeaf(m, t, d, lo, hi, b, v);
      UntouchedLeaf(t, u, d, lo1, hi1, b, v);
    }
    UntouchedIs(m, u, d, a, z);
  }

  /** A page outside the address spaces changed, and nothing else. */
  lemma OutsideUntouched(m: Mem, t: Mem, f: nat, d: nat)
    requires Inv(m) && f < |m.page| && (m.own[f] == Taken || m.own[f] == Spare)
    requires t.dirs == m.dirs && |t.page| == |m.page|
    requires forall g: nat | g < |m.page| && g != f :: t.page[g] == m.page[g]
    ensures Untouched(m, t, d, 0, 0)
  {
    forall b, x: nat | b in m.dirs && x < PTES
      ensures SameSlot(m, t, b, x, d)
    {
      LookupFrame(m, t.page, f, b, x);
    }
    forall b, v: nat | b in m.dirs && v < PTES * PTES
      ensures SameLeaf(m, t, b, v)
    {
      LookupFrame(m, t.page, f, b, v);
      if v < USER_PAGES {
        LeafHas(m, b, v);
      }
    }
    UntouchedIs(m, t, d, 0, 0);
  }

  lemma ListStays(m: Mem, t: Mem)
    requires ListOk(m) && t.freelist == m.freelist && t.free == m.free && |t.own| == |t.page| == |m.page|
    requires forall g: nat | g < |m.page| && m.own[g] == Spare :: t.own[g] == Spare && t.page[g] == m.page[g]
    ensures ListOk(t)
  {
  }

  // ----- A new table: walkpgdir with alloc

  function Hung(m: Mem, d: nat, x: nat, f: nat): Mem
    requires IsTable(m.page, d) && x < PTES && f < |m.own|
  {
    m.(page := SetEntry(m.page, d, x, To(f, true, true)), own := m.own[f := Table(d, x)])
  }

  ghost predicate Hangs(m: Mem, d: nat, x: nat, f: nat) {
    && Inv(m) && d in m.dirs && x < PTES && Entry(m.page, d, x) == Absent
    && f < |m.page| && m.own[f] == Taken && m.page[f] == Entries(Blank())
  }

  lemma HungPage(m: Mem, d: nat, x: nat, f: nat, g: nat)
    requires Hangs(m, d, x, f) && IsTable(m.page, d) && g < |m.page|
    ensures PageOk(Hung(m, d, x, f), g)
  {
    PageHas(m, g);
    DirHas(m, d);
    if m.own[g].Table? {
      LookupAfterHang(m, d, x, f, m.own[g].d, m.own[g].x);
    } else if m.own[g].Leaf? {
      LookupAfterHang(m, d, x, f, m.own[g].d, m.own[g].v);
    } else if g == f {
      LookupAfterHang(m, d, x, f, d, x);
    }
  }

  lemma HungSlot(m: Mem, d: nat, x: nat, f: nat, b: nat, v: nat)
    requires Hangs(m, d, x, f) && IsTable(m.page, d) && b in m.dirs
    ensures DirOk(Hung(m, d, x, f), b)
    ensures v < PTES ==> TableOk(Hung(m, d, x, f), b, v)
    ensures v < PTES ==> SameSlot(m, Hung(m, d, x, f), b, v, d)
    ensures v < USER_PAGES ==> LeafOk(Hung(m, d, x, f), b, v)
    ensures v < PTES * PTES ==> SameLeaf(m, Hung(m, d, x, f), b, v)
  {
    DirHas(m, d);
    DirHas(m, b);
    if v < PTES * PTES {
      LookupAfterHang(m, d, x, f, b, v);
    }
    if v < USER_PAGES {
      LeafHas(m, b, v);
    }
    if v < PTES {
      TableHas(m, b, v);
    }
  }

  lemma HungKeepsInv(m: Mem, d: nat, x: nat, f: nat)
    requires Hangs(m, d, x, f)
    ensures IsTable(m.page, d)
    ensures var t := Hung(m, d, x, f);
      && Inv(t) && Takens(t) == Takens(m) - {f} && Untouched(m, t, d, 0, 0)
      && Entry(t.page, d, x) == To(f, true, true)
  {
    DirHas(m, d);
    var t := Hung(m, d, x, f);
    LookupAfterHang(m, d, x, f, d, x);
    assert TreesOk(t) && Alike(m, t, d, 0, 0) by {
      forall g: nat | g < |t.page|
        ensures PageOk(t, g)
      {
        HungPage(m, d, x, f, g);
      }
      forall b, v: nat | b in m.dirs && v < PTES
        ensures TableOk(t, b, v)
      {
        HungSlot(m, d, x, f, b, v);
      }
      forall b, v: nat | b in m.dirs && v < USER_PAGES
        ensures LeafOk(t, b, v)
      {
        HungSlot(m, d, x, f, b, v);
      }
      forall b, v: nat | b in m.dirs && v < PTES
        ensures SameSlot(m, t, b, v, d)
      {
        HungSlot(m, d, x, f, b, v);
      }
      forall b, v: nat | b in m.dirs && v < PTES * PTES
        ensures SameLeaf(m, t, b, v)
      {
        HungSlot(m, d, x, f, b, v);
      }
      forall b | b in m.dirs
        ensures DirOk(t, b)
      {
        HungSlot(m, d, x, f, b, 0);
      }
    }
    assert ListOk(t) by {
      ListHas(m);
      ListStays(m, t);
    }
    InvIs(t);
    UntouchedIs(m, t, d, 0, 0);
  }

  // ----- An entry set or cleared: mappages, deallocuvm, clearpteu

  /** Entry v of d is now e, and page f is now o's. */
  function Placed(m: Mem, d: nat, v: nat, e: Pte, f: nat, o: Owner): Mem
    requires v < PTES * PTES && Entry(m.page, d, v / PTES).To? && IsTable(m.page, Entry(m.page, d, v / PTES).f) && f < |m.own|
  {
    m.(page := SetEntry(m.page, Entry(m.page, d, v / PTES).f, v % PTES, e), own := m.own[f := o])
  }

  /** The three ways an entry changes: a page of the kernel's own is mapped; a fresh page of bytes is mapped to
      a user page that has none; a user page is unmapped, or its permissions change. */
  predicate Places(m: Mem, d: nat, v: nat, e: Pte, f: nat, o: Owner) {
    && v < PTES * PTES && d in m.dirs && Entry(m.page, d, v / PTES).To? && f < |m.own| && |m.own| == |m.page|
    && if v >= USER_PAGES then o == m.own[f] else
       if Lookup(m.page, d, v).To? then
         f == Lookup(m.page, d, v).f && (if e.To? then e.f == f && o == Leaf(d, v) else o == Taken)
       else e.To? && e.f == f && m.own[f] == Taken && o == Leaf(d, v) && m.page[f].Bytes?
  }

  lemma PlacedLookup(m: Mem, d: nat, v: nat, e: Pte, f: nat, o: Owner, b: nat, w: nat)
    requires Inv(m) && Places(m, d, v, e, f, o) && IsTable(m.page, Entry(m.page, d, v / PTES).f) && b in m.dirs && w < PTES * PTES
    ensures w < PTES ==> Entry(Placed(m, d, v, e, f, o).page, b, w) == Entry(m.page, b, w)
    ensures Lookup(Placed(m, d, v, e, f, o).page, b, w) == if b == d && v == w then e else Lookup(m.page, b, w)
  {
    LookupAfterSet(m, d, v / PTES, v % PTES, e, b, w);
    assert v == v / PTES * PTES + v % PTES;
  }

  /** A page that changes hands is no directory and no table. */
  lemma PlacedOwner(m: Mem, d: nat, v: nat, e: Pte, f: nat, o: Owner)
    requires Inv(m) && Places(m, d, v, e, f, o)
    ensures IsTable(m.page, Entry(m.page, d, v / PTES).f) && m.own[Entry(m.page, d, v / PTES).f] == Table(d, v / PTES)
    ensures m.own[f] == o || m.own[f] == Taken || m.own[f] == Leaf(d, v)
    ensures v < USER_PAGES && e.To? ==> m.page[f].Bytes?
  {
    TableHas(m, d, v / PTES);
    if v < USER_PAGES {
      LeafHas(m, d, v);
      PageHas(m, f);
    }
  }

  lemma PlacedPage(m: Mem, d: nat, v: nat, e: Pte, f: nat, o: Owner, g: nat)
    requires Inv(m) && Places(m, d, v, e, f, o) && IsTable(m.page, Entry(m.page, d, v / PTES).f) && g < |m.page|
    ensures PageOk(Placed(m, d, v, e, f, o), g)
  {
    PlacedOwner(m, d, v, e, f, o);
    PageHas(m, g);
    PlacedLookup(m, d, v, e, f, o, d, v);
    if m.own[g].Table? {
      PlacedLookup(m, d, v, e, f, o, m.own[g].d, m.own[g].x);
    } else if m.own[g].Leaf? {
      PlacedLookup(m, d, v, e, f, o, m.own[g].d, m.own[g].v);
    }
  }

  lemma PlacedSlot(m: Mem, d: nat, v: nat, e: Pte, f: nat, o: Owner, b: nat, w: nat)
    requires Inv(m) && Places(m, d, v, e, f, o) && IsTable(m.page, Entry(m.page, d, v / PTES).f) && b in m.dirs
    ensures DirOk(Placed(m, d, v, e, f, o), b)
    ensures w < PTES ==> TableOk(Placed(m, d, v, e, f, o), b, w)
    ensures w < USER_PAGES ==> LeafOk(Placed(m, d, v, e, f, o), b, w)
    ensures w < PTES ==> SameSlot(m, Placed(m, d, v, e, f, o), b, w, d)
    ensures w < PTES * PTES && !(b == d && w == v) ==> SameLeaf(m, Placed(m, d, v, e, f, o), b, w)
  {
    PlacedOwner(m, d, v, e, f, o);
    DirHas(m, b);
    if w < PTES * PTES {
      PlacedLookup(m, d, v, e, f, o, b, w);
    }
    if w < USER_PAGES {
      LeafHas(m, b, w);
    }
    if w < PTES {
      TableHas(m, b, w);
    }
  }

  lemma PlacedKeepsInv(m: Mem, d: nat, v: nat, e: Pte, f: nat, o: Owner)
    requires Inv(m) && Places(m, d, v, e, f, o)
    ensures IsTable(m.page, Entry(m.page, d, v / PTES).f)
    ensures var t := Placed(m, d, v, e, f, o);
      && Inv(t) && Takens(t) == (if o == m.own[f] then Takens(m) else if o == Taken then Takens(m) + {f} else Takens(m) - {f})
      && Untouched(m, t, d, v, v + 1) && Lookup(t.page, d, v) == e
      && Entry(t.page, d, v / PTES) == Entry(m.page, d, v / PTES)
      && (v < USER_PAGES ==> m.page[f] == t.page[f])
  {
    PlacedOwner(m, d, v, e, f, o);
    var t := Placed(m, d, v, e, f, o);
    PlacedLookup(m, d, v, e, f, o, d, v);
    PlacedLookup(m, d, v, e, f, o, d, v / PTES);
    assert TreesOk(t) && Alike(m, t, d, v, v + 1) by {
      forall g: nat | g < |t.page|
        ensures PageOk(t, g)
      {
        PlacedPage(m, d, v, e, f, o, g);
      }
      forall b, w: nat | b in m.dirs && w < PTES
        ensures TableOk(t, b, w)
      {
        PlacedSlot(m, d, v, e, f, o, b, w);
      }
      forall b, w: nat | b in m.dirs && w < USER_PAGES
        ensures LeafOk(t, b, w)
      {
        PlacedSlot(m, d, v, e, f, o, b, w);
      }
      forall b, w: nat | b in m.dirs && w < PTES
        ensures SameSlot(m, t, b, w, d)
      {
        PlacedSlot(m, d, v, e, f, o, b, w);
      }
      forall b, w: nat | b in m.dirs && w < PTES * PTES && !(b == d && w == v)
        ensures SameLeaf(m, t, b, w)
      {
        PlacedSlot(m, d, v, e, f, o, b, w);
      }
      forall b | b in m.dirs
        ensures DirOk(t, b)
      {
        PlacedSlot(m, d, v, e, f, o, b, 0);
      }
    }
    assert ListOk(t) by {
      ListHas(m);
      ListStays(m, t);
    }
    InvIs(t);
    UntouchedIs(m, t, d, v, v + 1);
  }

  // ----- Directories come and go

  /** setupkvm: a blank page becomes a directory. */
  function Founded(m: Mem, f: nat): Mem
    requires f < |m.own|
  {
    m.(own := m.own[f := Dir], dirs := m.dirs + {f})
  }

  lemma FoundedKeepsInv(m: Mem, f: nat)
    requires Inv(m) && f < |m.page| && m.own[f] == Taken && m.page[f] == Entries(Blank())
    ensures f !in m.dirs && Inv(Founded(m, f)) && Takens(Founded(m, f)) == Takens(m) - {f}
    ensures forall x: nat | x < PTES :: Entry(m.page, f, x) == Absent
    ensures forall v: nat | v < PTES * PTES :: Lookup(m.page, f, v) == Absent
  {
    var t := Founded(m, f);
    if f in m.dirs {
      DirHas(m, f);
      assert false;
    }
    forall g: nat | g < |t.page|
      ensures PageOk(t, g)
    {
      PageHas(m, g);
    }
    forall b | b in t.dirs
      ensures DirOk(t, b)
    {
      if b != f {
        DirHas(m, b);
      }
    }
    forall b, x: nat | b in t.dirs && x < PTES
      ensures TableOk(t, b, x)
    {
      if b != f {
        TableHas(m, b, x);
      }
    }
    forall b, v: nat | b in t.dirs && v < USER_PAGES
      ensures LeafOk(t, b, v)
    {
      if b != f {
        LeafHas(m, b, v);
      }
    }
    ListHas(m);
    ListStays(m, t);
    InvIs(t);
  }

  /** freevm, once the user half is empty: the tables and the directory are in no address space. */
  ghost function Disbanded(m: Mem, d: nat): (t: Mem)
    ensures |t.own| == |m.own|
  {
    m.(dirs := m.dirs - {d},
       own := seq(|m.own|, f requires 0 <= f < |m.own| =>
         if f == d || (m.own[f].Table? && m.own[f].d == d) then Taken else m.own[f]))
  }

  /** The tables of d at slots from i on. */
  ghost function TablesFrom(m: Mem, d: nat, i: nat): set<nat> {
    set f: nat | f < |m.own| && m.own[f].Table? && m.own[f].d == d && m.own[f].x >= i
  }

  ghost predicate NoLeaves(m: Mem, d: nat) {
    forall v: nat | v < USER_PAGES :: Lookup(m.page, d, v) == Absent
  }

  lemma DisbandedKeepsInv(m: Mem, d: nat)
    requires Inv(m) && d in m.dirs && NoLeaves(m, d)
    ensures Inv(Disbanded(m, d)) && d < |m.own| && m.own[d] == Dir
    ensures Takens(Disbanded(m, d)) == Takens(m) + {d} + TablesFrom(m, d, 0)
  {
    var t := Disbanded(m, d);
    DirHas(m, d);
    assert TreesOk(t) by {
      forall g: nat | g < |t.page|
        ensures PageOk(t, g)
      {
        PageHas(m, g);
      }
      forall b | b in t.dirs
        ensures DirOk(t, b)
      {
        DirHas(m, b);
      }
      forall b, x: nat | b in t.dirs && x < PTES
        ensures TableOk(t, b, x)
      {
        TableHas(m, b, x);
      }
      forall b, v: nat | b in t.dirs && v < USER_PAGES
        ensures LeafOk(t, b, v)
      {
        LeafHas(m, b, v);
      }
    }
    assert ListOk(t) by {
      ListHas(m);
      ListStays(m, t);
    }
    InvIs(t);
  }

  // ----- What the tables say is all there is

  /** Pages have the same owners when the same pages are taken and every directory holds the same entries. */
  lemma OwnersFollow(m: Mem, t: Mem)
    requires Inv(m) && Inv(t) && t.dirs == m.dirs && |t.page| == |m.page| && Takens(t) == Takens(m)
    requires forall b, x: nat | b in m.dirs && x < PTES :: Entry(t.page, b, x) == Entry(m.page, b, x)
    requires forall b, v: nat | b in m.dirs && v < USER_PAGES :: SameLeaf(m, t, b, v)
    ensures t.own == m.own && multiset(t.free) == multiset(m.free)
  {
    forall b, v: nat | b in m.dirs && v < USER_PAGES
      ensures Lookup(t.page, b, v) == Lookup(m.page, b, v)
    {
      assert SameLeaf(m, t, b, v);
    }
    forall f: nat | f < |m.own|
      ensures t.own[f] == m.own[f]
    {
      OwnerFollows(m, t, f);
      OwnerFollows(t, m, f);
    }
    SameFree(m, t);
  }

  /** A page that is taken or in an address space of m has the same owner in t. */
  lemma OwnerFollows(m: Mem, t: Mem, f: nat)
    requires Inv(m) && Inv(t) && t.dirs == m.dirs && |t.page| == |m.page| && Takens(t) == Takens(m)
    requires forall b, x: nat | b in m.dirs && x < PTES :: Entry(t.page, b, x) == Entry(m.page, b, x)
    requires forall b, v: nat | b in m.dirs && v < USER_PAGES :: Lookup(t.page, b, v) == Lookup(m.page, b, v)
    requires f < |m.own|
    ensures m.own[f] != Spare ==> t.own[f] == m.own[f]
  {
    PageHas(m, f);
    var o := m.own[f];
    if o == Taken {
      assert f in Takens(m);
    } else if o == Dir {
      DirHas(t, f);
    } else if o.Table? {
      TableHas(t, o.d, o.x);
    } else if o.Leaf? {
      LeafHas(t, o.d, o.v);
    }
  }

  lemma Once(s: seq<nat>, k: nat)
    requires k < |s| && forall i, j | 0 <= i < j < |s| :: s[i] != s[j]
    ensures multiset(s)[s[k]] == 1
  {
    assert s == s[..k] + [s[k]] + s[k + 1..];
    assert s[k] !in s[..k] && s[k] !in s[k + 1..];
  }

  /** The free list holds exactly the spare pages, each once. */
  lemma FreeOnce(m: Mem, f: nat)
    requires Inv(m)
    ensures multiset(m.free)[f] == if f < |m.own| && m.own[f] == Spare then 1 else 0
  {
    ListHas(m);
    if f in m.free {
      var k :| 0 <= k < |m.free| && m.free[k] == f;
      Once(m.free, k);
    } else if f < |m.own| {
      PageHas(m, f);
    }
  }

  lemma SameFree(m: Mem, t: Mem)
    requires Inv(m) && Inv(t) && t.own == m.own
    ensures multiset(t.free) == multiset(m.free)
  {
    forall f: nat
      ensures multiset(t.free)[f] == multiset(m.free)[f]
    {
      FreeOnce(m, f);
      FreeOnce(t, f);
    }
  }

  // ----- Conservation

  /** The pages of all address spaces: directories, tables and user pages. */
  ghost function InSpaces(m: Mem): set<nat> {
    set f: nat | f < |m.own| && m.own[f] != Spare && m.own[f] != Taken
  }

  ghost function Spares(m: Mem): set<nat> {
    set f: nat | f < |m.own| && m.own[f] == Spare
  }

  ghost function Range(lo: nat, hi: nat): (s: set<nat>)
    ensures |s| == if lo < hi then hi - lo else 0
    ensures forall x: nat :: x in s <==> lo <= x < hi
  {
    if lo < hi then Range(lo, hi - 1) + {hi - 1} else {}
  }

  lemma FreeSize(m: Mem)
    requires Inv(m)
    ensures |m.free| == |Spares(m)|
  {
    forall f: nat
      ensures multiset(m.free)[f] == multiset(Spares(m))[f]
    {
      FreeOnce(m, f);
    }
    assert multiset(m.free) == multiset(Spares(m));
    assert |multiset(m.free)| == |m.free|;
  }

  /** Free pages, taken pages and the pages of the address spaces are all the pages there are. */
  lemma Census(m: Mem)
    requires Inv(m)
    ensures |m.free| + |Takens(m)| + |InSpaces(m)| == |m.page|
  {
    FreeSize(m);
    var all := Range(0, |m.page|);
    assert all == Spares(m) + Takens(m) + InSpaces(m);
    assert Spares(m) !! Takens(m) && Spares(m) + Takens(m) !! InSpaces(m);
  }

  // ----- How many pages a mapping takes

  /** The empty slots of d that pages lo up to hi fall into. */
  ghost function NewSlots(m: Mem, d: nat, lo: nat, hi: nat): set<nat> {
    set x: nat | x < PTES && lo < hi && lo / PTES <= x <= (hi - 1) / PTES && Entry(m.page, d, x) == Absent
  }

  /** The pages it takes to map pages lo up to hi of d: one each, and one for each table that is missing. */
  ghost function Needed(m: Mem, d: nat, lo: nat, hi: nat): nat {
    (if lo < hi then hi - lo else 0) + |NewSlots(m, d, lo, hi)|
  }

  lemma NeededNext(m: Mem, d: nat, lo: nat, v: nat)
    requires lo <= v < PTES * PTES
    ensures var missing := Entry(m.page, d, v / PTES) == Absent && (v == lo || (v - 1) / PTES != v / PTES);
      Needed(m, d, lo, v + 1) == Needed(m, d, lo, v) + 1 + if missing then 1 else 0
  {
    var missing := Entry(m.page, d, v / PTES) == Absent && (v == lo || (v - 1) / PTES != v / PTES);
    var x := v / PTES;
    if missing {
      assert NewSlots(m, d, lo, v + 1) == NewSlots(m, d, lo, v) + {x};
      assert x !in NewSlots(m, d, lo, v);
    } else {
      assert NewSlots(m, d, lo, v + 1) == NewSlots(m, d, lo, v);
    }
  }

  lemma NeededGrows(m: Mem, d: nat, lo: nat, v: nat, hi: nat)
    requires lo <= v <= hi <= USER_PAGES
    ensures Needed(m, d, lo, v) <= Needed(m, d, lo, hi)
    decreases hi - v
  {
    if v < hi {
      NeededNext(m, d, lo, v);
      NeededGrows(m, d, lo, v + 1, hi);
    }
  }

  // ----- A page from kalloc, filled

  function Grabbed(m: Mem, p: Page): Mem
    requires m.free != [] && m.free[0] < |m.own| && m.free[0] < |m.page|
  {
    Filled(Popped(m), m.free[0], p)
  }

  lemma GrabbedKeepsInv(m: Mem, p: Page, d: nat)
    requires Inv(m) && m.free != []
    ensures m.free[0] < |m.page| && m.free[0] !in Takens(m)
    ensures var t := Grabbed(m, p);
      && Inv(t) && Takens(t) == Takens(m) + {m.free[0]} && Untouched(m, t, d, 0, 0)
      && t.own[m.free[0]] == Taken && t.page[m.free[0]] == p && |t.free| == |m.free| - 1
      && (forall b, x: nat | b in m.dirs && x < PTES :: Entry(t.page, b, x) == Entry(m.page, b, x))
  {
    PoppedKeepsInv(m);
    var f := m.free[0];
    ListHas(m);
    FilledKeepsInv(Popped(m), f, p);
    OutsideUntouched(m, Grabbed(m, p), f, d);
    forall b, x: nat | b in m.dirs && x < PTES
      ensures Entry(Grabbed(m, p).page, b, x) == Entry(m.page, b, x)
    {
      LookupFrame(m, Grabbed(m, p).page, f, b, x);
    }
  }

  /** kfree of a page outside the address spaces. */
  lemma PushedUntouched(m: Mem, f: nat, d: nat)
    requires Inv(m) && f < |m.page| && m.own[f] == Taken
    ensures Inv(Pushed(m, f)) && Takens(Pushed(m, f)) == Takens(m) - {f} && Untouched(m, Pushed(m, f), d, 0, 0)
    ensures forall b, x: nat | b in m.dirs && x < PTES :: Entry(Pushed(m, f).page, b, x) == Entry(m.page, b, x)
  {
    PushedKeepsInv(m, f);
    OutsideUntouched(m, Pushed(m, f), f, d);
    forall b, x: nat | b in m.dirs && x < PTES
      ensures Entry(Pushed(m, f).page, b, x) == Entry(m.page, b, x)
    {
      LookupFrame(m, Pushed(m, f).page, f, b, x);
    }
  }

  /** walkpgdir took m to n; then the entry of page v is set. */
  lemma MappedStep(m: Mem, n: Mem, d: nat, v: nat, e: Pte, f: nat, o: Owner)
    requires Inv(m) && d in m.dirs && Untouched(m, n, d, 0, 0) && Takens(n) == Takens(m) && Inv(n)
    requires Places(n, d, v, e, f, o) && Lookup(n.page, d, v) == Absent
    requires v < USER_PAGES ==> f < |m.page| && m.own[f] == Taken && m.page[f].Bytes?
    ensures IsTable(n.page, Entry(n.page, d, v / PTES).f)
    ensures var t := Placed(n, d, v, e, f, o);
      && Inv(t) && Untouched(m, t, d, v, v + 1) && Lookup(t.page, d, v) == e
      && Takens(t) == (if v < USER_PAGES then Takens(m) - {f} else Takens(m))
      && (v < USER_PAGES ==> t.page[f] == n.page[f])
      && (forall x: nat | x < PTES :: Entry(t.page, d, x) == Entry(n.page, d, x))
  {
    PlacedKeepsInv(n, d, v, e, f, o);
    UntouchedThen(m, n, Placed(n, d, v, e, f, o), d, 0, 0, v, v + 1, v, v + 1);
    forall x: nat | x < PTES
      ensures Entry(Placed(n, d, v, e, f, o).page, d, x) == Entry(n.page, d, x)
    {
      PlacedLookup(n, d, v, e, f, o, d, x);
    }
  }

  // ----- Shrinking

  /** Pages lo up to hi of d are not mapped. */
  ghost predicate Empty(m: Mem, d: nat, lo: nat, hi: nat) {
    forall w: nat | lo <= w < hi && w < USER_PAGES :: Lookup(m.page, d, w) == Absent
  }

  lemma EmptyNext(m: Mem, t: Mem, d: nat, lo: nat, v: nat)
    requires Empty(m, d, lo, v) && d in m.dirs && Untouched(m, t, d, v, v + 1) && Lookup(t.page, d, v) == Absent
    ensures Empty(t, d, lo, v + 1)
  {
    forall w: nat | lo <= w < v + 1 && w < USER_PAGES
      ensures Lookup(t.page, d, w) == Absent
    {
      if w < v {
        UntouchedLeaf(m, t, d, v, v + 1, d, w);
      }
    }
  }

  lemma EmptySlot(m: Mem, d: nat, lo: nat, v: nat)
    requires Empty(m, d, lo, v) && Entry(m.page, d, v / PTES) == Absent
    ensures Empty(m, d, lo, (v / PTES + 1) * PTES)
  {
    forall w: nat | lo <= w < (v / PTES + 1) * PTES && w < USER_PAGES
      ensures Lookup(m.page, d, w) == Absent
    {
      if w >= v {
        assert w / PTES == v / PTES;
      }
    }
  }

  /** deallocuvm frees the page of user page v and clears the entry. */
  function Dropped(m: Mem, d: nat, v: nat): Mem
    requires v < USER_PAGES && Entry(m.page, d, v / PTES).To? && IsTable(m.page, Entry(m.page, d, v / PTES).f)
    requires Lookup(m.page, d, v).To? && Lookup(m.page, d, v).f < |m.own| == |m.page|
  {
    Pushed(Placed(m, d, v, Absent, Lookup(m.page, d, v).f, Taken), Lookup(m.page, d, v).f)
  }

  lemma DroppedKeepsInv(m: Mem, d: nat, v: nat)
    requires Inv(m) && d in m.dirs && v < USER_PAGES && Lookup(m.page, d, v).To?
    ensures IsTable(m.page, Entry(m.page, d, v / PTES).f) && Lookup(m.page, d, v).f < |m.own|
    ensures Lookup(m.page, d, v).f != Entry(m.page, d, v / PTES).f
    ensures var t := Dropped(m, d, v);
      && Inv(t) && Untouched(m, t, d, v, v + 1) && Takens(t) == Takens(m) && Lookup(t.page, d, v) == Absent
      && (forall x: nat | x < PTES :: Entry(t.page, d, x) == Entry(m.page, d, x))
  {
    var f := Lookup(m.page, d, v).f;
    TableHas(m, d, v / PTES);
    LeafHas(m, d, v);
    PlacedKeepsInv(m, d, v, Absent, f, Taken);
    var n := Placed(m, d, v, Absent, f, Taken);
    PushedUntouched(n, f, d);
    var t := Pushed(n, f);
    UntouchedLeaf(n, t, d, 0, 0, d, v);
    UntouchedThen(m, n, t, d, v, v + 1, 0, 0, v, v + 1);
    forall x: nat | x < PTES
      ensures Entry(t.page, d, x) == Entry(m.page, d, x)
    {
      PlacedLookup(m, d, v, Absent, f, Taken, d, x);
    }
  }

  // ----- Freeing a directory

  lemma TablesStep(m: Mem, d: nat, i: nat)
    requires Inv(m) && d in m.dirs && i < PTES
    ensures var e := Entry(m.page, d, i);
      if e.To? then e.f in TablesFrom(m, d, i) && TablesFrom(m, d, i + 1) == TablesFrom(m, d, i) - {e.f}
      else TablesFrom(m, d, i + 1) == TablesFrom(m, d, i)
  {
    TableHas(m, d, i);
    forall g | g in TablesFrom(m, d, i) && g !in TablesFrom(m, d, i + 1)
      ensures Entry(m.page, d, i).To? && g == Entry(m.page, d, i).f
    {
      PageHas(m, g);
    }
  }

  lemma TablesDone(m: Mem, d: nat)
    requires Inv(m)
    ensures TablesFrom(m, d, PTES) == {}
  {
    forall g | g in TablesFrom(m, d, PTES)
      ensures false
    {
      PageHas(m, g);
    }
  }

  /** The address spaces of s are as they were. */
  ghost predicate Kept(m: Mem, t: Mem, s: set<nat>) {
    |t.page| == |m.page| && KeptBehind(m, t, s, 1)
  }

  ghost predicate KeptBehind(m: Mem, t: Mem, s: set<nat>, turns: nat) {
    if turns == 0 then
      && (forall b, x: nat | b in s && x < PTES :: Entry(t.page, b, x) == Entry(m.page, b, x))
      && (forall b, v: nat | b in s && v < PTES * PTES :: SameLeaf(m, t, b, v))
    else
      KeptBehind(m, t, s, turns - 1)
  }

  lemma KeptHas(m: Mem, t: Mem, s: set<nat>, b: nat, v: nat)
    requires Kept(m, t, s) && b in s && v < PTES * PTES
    ensures SameLeaf(m, t, b, v) && (v < PTES ==> Entry(t.page, b, v) == Entry(m.page, b, v))
  {
    assert KeptBehind(m, t, s, 0);
  }

  lemma KeptElsewhere(m: Mem, t: Mem, d: nat, lo: nat, hi: nat, s: set<nat>)
    requires Untouched(m, t, d, lo, hi) && s <= m.dirs && d !in s
    ensures Kept(m, t, s)
  {
    forall b, x: nat | b in s && x < PTES
      ensures Entry(t.page, b, x) == Entry(m.page, b, x)
    {
      UntouchedSlot(m, t, d, lo, hi, b, x);
    }
    forall b, v: nat | b in s && v < PTES * PTES
      ensures SameLeaf(m, t, b, v)
    {
      UntouchedLeaf(m, t, d, lo, hi, b, v);
    }
    assert KeptBehind(m, t, s, 0);
  }

  lemma KeptThen(m: Mem, t: Mem, u: Mem, s: set<nat>)
    requires Kept(m, t, s) && Kept(t, u, s)
    ensures Kept(m, u, s)
  {
    forall b, v: nat | b in s && v < PTES * PTES
      ensures SameLeaf(m, u, b, v)
    {
      KeptHas(m, t, s, b, v);
      KeptHas(t, u, s, b, v);
    }
    forall b, x: nat | b in s && x < PTES
      ensures Entry(u.page, b, x) == Entry(m.page, b, x)
    {
      KeptHas(m, t, s, b, x);
      KeptHas(t, u, s, b, x);
    }
    assert KeptBehind(m, u, s, 0);
  }

  lemma KeptSame(m: Mem, t: Mem, u: Mem, s: set<nat>)
    requires Kept(m, t, s) && u.page == t.page
    ensures Kept(m, u, s)
  {
    forall b, v: nat | b in s && v < PTES * PTES
      ensures SameLeaf(m, u, b, v) && (v < PTES ==> Entry(u.page, b, v) == Entry(m.page, b, v))
    {
      KeptHas(m, t, s, b, v);
    }
    assert KeptBehind(m, u, s, 0);
  }

  lemma KeptFewer(m: Mem, t: Mem, s: set<nat>, r: set<nat>)
    requires Kept(m, t, s) && r <= s
    ensures Kept(m, t, r)
  {
    assert KeptBehind(m, t, s, 0);
    assert KeptBehind(m, t, r, 0);
  }

  /** kfree changes no address space. */
  lemma PushedKept(m: Mem, t: Mem, f: nat, s: set<nat>)
    requires Inv(t) && f < |t.page| && t.own[f] == Taken && Kept(m, t, s) && s <= t.dirs
    ensures Kept(m, Pushed(t, f), s)
  {
    if f in t.dirs {
      DirHas(t, f);
      assert false;
    }
    PushedUntouched(t, f, f);
    KeptElsewhere(t, Pushed(t, f), f, 0, 0, s);
    KeptThen(m, t, Pushed(t, f), s);
  }

  // ----- Growing

  /** What a user page is: its permissions and its bytes. */
  datatype Cell = Cell(user: bool, write: bool, page: Page)

  predicate Holds(m: Mem, d: nat, v: nat, c: Cell) {
    var e := Lookup(m.page, d, v);
    e.To? && e.f < |m.page| && c == Cell(e.user, e.write, m.page[e.f])
  }

  function ZeroPage(): Page { Bytes(seq(4096, _ => 0)) }

  /** Pages lo up to hi of d are there, writable by the user, and all zero. */
  ghost predicate Zeroed(m: Mem, d: nat, lo: nat, hi: nat) {
    forall w: nat | lo <= w < hi :: Holds(m, d, w, Cell(true, true, ZeroPage()))
  }

  lemma ZeroedNext(m: Mem, t: Mem, d: nat, lo: nat, v: nat)
    requires Zeroed(m, d, lo, v) && d in m.dirs && v < USER_PAGES && Untouched(m, t, d, v, v + 1)
    requires Holds(t, d, v, Cell(true, true, ZeroPage()))
    ensures Zeroed(t, d, lo, v + 1)
  {
    forall w: nat | lo <= w < v + 1
      ensures Holds(t, d, w, Cell(true, true, ZeroPage()))
    {
      if w < v {
        UntouchedLeaf(m, t, d, v, v + 1, d, w);
        assert Holds(m, d, w, Cell(true, true, ZeroPage()));
      }
    }
  }

  lemma ZeroedThen(m: Mem, t: Mem, d: nat, lo: nat, mid: nat, hi: nat)
    requires Zeroed(m, d, lo, mid) && d in m.dirs && lo <= mid <= hi <= USER_PAGES && Untouched(m, t, d, mid, hi) && Zeroed(t, d, mid, hi)
    ensures Zeroed(t, d, lo, hi)
  {
    forall w: nat | lo <= w < hi
      ensures Holds(t, d, w, Cell(true, true, ZeroPage()))
    {
      if w < mid {
        UntouchedLeaf(m, t, d, mid, hi, d, w);
        assert Holds(m, d, w, Cell(true, true, ZeroPage()));
      }
    }
  }

  lemma EmptyAfter(m: Mem, t: Mem, d: nat, lo: nat, hi: nat, a: nat, z: nat)
    requires Untouched(m, t, d, lo, hi) && d in m.dirs && Empty(m, d, a, z) && (lo < hi ==> hi <= a || z <= lo)
    ensures Empty(t, d, a, z)
  {
    forall w: nat | a <= w < z && w < USER_PAGES
      ensures Lookup(t.page, d, w) == Absent
    {
      UntouchedLeaf(m, t, d, lo, hi, d, w);
    }
  }

  /** The slots of d that are empty in t are those of m that pages lo up to v do not fall into. */
  ghost predicate Slots(m: Mem, t: Mem, d: nat, lo: nat, v: nat) {
    forall x: nat | x < PTES ::
      Entry(t.page, d, x) == Absent <==> Entry(m.page, d, x) == Absent && !(lo < v && lo / PTES <= x <= (v - 1) / PTES)
  }

  lemma SlotsNext(m: Mem, t: Mem, u: Mem, d: nat, lo: nat, v: nat)
    requires Slots(m, t, d, lo, v) && lo <= v < USER_PAGES && Entry(u.page, d, v / PTES).To?
    requires forall x: nat | x < PTES && x != v / PTES :: Entry(u.page, d, x) == Entry(t.page, d, x)
    ensures Slots(m, u, d, lo, v + 1)
    ensures Needed(m, d, lo, v + 1) == Needed(m, d, lo, v) + 1 + if Entry(t.page, d, v / PTES) == Absent then 1 else 0
  {
    NeededNext(m, d, lo, v);
  }

  // ----- The kernel half: kmap, with the kernel's data at physical page `data`

  const KERNEL_PAGES := 65      // a directory and the 64 tables of the kernel half

  predicate DataPage(data: nat) { 0x100 < data < 0xE000 }

  function KernelPte(data: nat, v: nat): Pte
    requires v >= USER_PAGES
  {
    if v < 0x80100 then To(v - 0x80000, false, true)
    else if v < 0x80000 + data then To(v - 0x80000, false, false)
    else if v < 0x8E000 then To(v - 0x80000, false, true)
    else if v >= 0xFE000 then To(v, false, true)
    else Absent
  }

  /** The kernel half of d is mapped up to page k. */
  ghost predicate KernelUpTo(m: Mem, data: nat, d: nat, k: nat) {
    forall w: nat | USER_PAGES <= w < PTES * PTES :: Lookup(m.page, d, w) == if w < k then KernelPte(data, w) else Absent
  }

  ghost function SlotsInUse(m: Mem, d: nat): set<nat> {
    set x: nat | x < PTES && Entry(m.page, d, x).To?
  }

  /** The slots of the kernel half that start below page k. */
  ghost function KernelSlots(k: nat): set<nat> {
    set x: nat | x < PTES && (512 <= x < 568 || 1016 <= x) && x * PTES < k
  }

  lemma KernelNext(m: Mem, t: Mem, data: nat, d: nat, v: nat)
    requires d in m.dirs && KernelUpTo(m, data, d, v) && Untouched(m, t, d, v, v + 1) && USER_PAGES <= v < PTES * PTES
    requires Lookup(t.page, d, v) == KernelPte(data, v)
    ensures KernelUpTo(t, data, d, v + 1)
  {
    forall w: nat | USER_PAGES <= w < PTES * PTES
      ensures Lookup(t.page, d, w) == if w < v + 1 then KernelPte(data, w) else Absent
    {
      if w != v {
        UntouchedLeaf(m, t, d, v, v + 1, d, w);
      }
    }
  }

  lemma SlotsInUseNext(m: Mem, t: Mem, d: nat, v: nat)
    requires SlotsInUse(m, d) == KernelSlots(v) && v < PTES * PTES && (512 <= v / PTES < 568 || 1016 <= v / PTES)
    requires Entry(t.page, d, v / PTES).To?
    requires forall x: nat | x < PTES && x != v / PTES :: Entry(t.page, d, x) == Entry(m.page, d, x)
    ensures SlotsInUse(t, d) == KernelSlots(v + 1)
    ensures |KernelSlots(v + 1)| == |KernelSlots(v)| + if Entry(m.page, d, v / PTES) == Absent then 1 else 0
  {
    var x := v / PTES;
    assert x * PTES <= v;
    assert KernelSlots(v + 1) == KernelSlots(v) + {x};
    assert x in KernelSlots(v) <==> Entry(m.page, d, x).To?;
  }

  lemma KernelSlotsSize()
    ensures |KernelSlots(PTES * PTES)| == KERNEL_PAGES - 1
  {
    assert KernelSlots(PTES * PTES) == Range(512, 568) + Range(1016, 1024);
  }

  lemma KernelSlotOf(data: nat, v: nat)
    requires DataPage(data) && USER_PAGES <= v < PTES * PTES && KernelPte(data, v).To?
    ensures 512 <= v / PTES < 568 || 1016 <= v / PTES
  {
  }

  lemma KernelSlotsGrow(v: nat)
    requires v < PTES * PTES && (512 <= v / PTES < 568 || 1016 <= v / PTES) && v / PTES !in KernelSlots(v)
    ensures |KernelSlots(v)| < KERNEL_PAGES - 1
  {
    KernelSlotsSize();
    assert v / PTES * PTES <= v;
    assert v / PTES in KernelSlots(PTES * PTES);
    SmallerSet(KernelSlots(v), KernelSlots(PTES * PTES), v / PTES);
  }

  lemma SmallerSet(a: set<nat>, b: set<nat>, x: nat)
    requires a <= b && x in b && x !in a
    ensures |a| < |b|
  {
    SubsetSize(a, b - {x});
  }

  /** freevm of a directory made after m, when all else is as in m: every page is back. */
  lemma AllBack(m: Mem, t: Mem)
    requires Inv(m) && Inv(t) && t.dirs == m.dirs && Takens(t) == Takens(m) && Kept(m, t, m.dirs)
    ensures t.own == m.own && multiset(t.free) == multiset(m.free)
  {
    forall b, v: nat | b in m.dirs && v < PTES * PTES
      ensures SameLeaf(m, t, b, v) && (v < PTES ==> Entry(t.page, b, v) == Entry(m.page, b, v))
    {
      KeptHas(m, t, m.dirs, b, v);
    }
    OwnersFollow(m, t);
  }

  datatype KernelRange = KernelRange(virt: nat, count: nat, phys: nat, write: bool)

  /** kmap: I/O space, kernel text, kernel data and memory, devices. */
  function Kmap(data: nat): seq<KernelRange>
    requires DataPage(data)
  {
    [KernelRange(0x80000, 0x100, 0, true), KernelRange(0x80100, data - 0x100, 0x100, false),
     KernelRange(0x80000 + data, 0xE000 - data, data, true), KernelRange(0xFE000, 0x2000, 0xFE000, true)]
  }

  function Start(data: nat, k: nat): nat
    requires DataPage(data) && k <= 4
  {
    if k < 4 then Kmap(data)[k].virt else PTES * PTES
  }

  /** Range k of kmap is what KernelPte says, and nothing is mapped between it and the next. */
  lemma KmapIs(data: nat, k: nat)
    requires DataPage(data) && k < 4
    ensures var r := Kmap(data)[k];
      && USER_PAGES <= r.virt && r.virt + r.count <= Start(data, k + 1) <= PTES * PTES
      && (forall w: nat | r.virt <= w < r.virt + r.count :: KernelPte(data, w) == To(r.phys + (w - r.virt), false, r.write))
      && (forall w: nat | r.virt + r.count <= w < Start(data, k + 1) :: KernelPte(data, w) == Absent)
      && KernelSlots(r.virt + r.count) == KernelSlots(Start(data, k + 1))
  {
    assert k == 0 || k == 1 || k == 2 || k == 3;
    if k == 2 {
      assert KernelSlots(0x8E000) == KernelSlots(0xFE000);
    }
  }

  lemma KernelGap(m: Mem, data: nat, d: nat, a: nat, z: nat)
    requires USER_PAGES <= a <= z <= PTES * PTES && KernelUpTo(m, data, d, a)
    requires forall w: nat | a <= w < z :: KernelPte(data, w) == Absent
    ensures KernelUpTo(m, data, d, z)
  {
  }

  lemma KeptSelf(m: Mem, t: Mem)
    requires Inv(m) && t.page == m.page
    ensures Kept(m, t, m.dirs)
  {
    forall b, v: nat | b in m.dirs && v < PTES * PTES
      ensures SameLeaf(m, t, b, v)
    {
      if v < USER_PAGES {
        LeafHas(m, b, v);
      }
    }
    assert KeptBehind(m, t, m.dirs, 0);
  }

  /** kalloc, memset, and the page is a directory with nothing in it. */
  lemma FoundedFresh(m: Mem)
    requires Inv(m) && m.free != []
    ensures m.free[0] < |m.own| && m.free[0] < |m.page|
    ensures var d, t := m.free[0], Founded(Grabbed(m, Entries(Blank())), m.free[0]);
      && Inv(t) && d !in m.dirs && Kept(m, t, m.dirs) && Takens(t) == Takens(m) && |t.free| == |m.free| - 1
      && Empty(t, d, 0, USER_PAGES) && SlotsInUse(t, d) == {}
      && (forall v: nat | v < PTES * PTES :: Lookup(t.page, d, v) == Absent)
  {
    var d := m.free[0];
    GrabbedKeepsInv(m, Entries(Blank()), d);
    var n := Grabbed(m, Entries(Blank()));
    FoundedKeepsInv(n, d);
    KeptElsewhere(m, n, d, 0, 0, m.dirs);
    KeptSame(m, n, Founded(n, d), m.dirs);
  }

  // ----- Copying

  /** User pages 0 up to k of d in m are all there, and c in t has them with the same permissions and bytes. */
  ghost predicate Copied(m: Mem, d: nat, t: Mem, c: nat, k: nat) {
    forall v: nat | v < k :: CopiedAt(m, d, t, c, v)
  }

  predicate CopiedAt(m: Mem, d: nat, t: Mem, c: nat, v: nat) {
    var e := Lookup(m.page, d, v);
    e.To? && e.f < |m.page| && Holds(t, c, v, Cell(e.user, e.write, m.page[e.f]))
  }

  /** The pages a copy of k user pages takes: the kernel half, the pages, and a table for each 1024. */
  function CopyCost(k: nat): nat { KERNEL_PAGES + k + (k + PTES - 1) / PTES }

  lemma NeededBlank(m: Mem, c: nat, k: nat)
    requires k <= USER_PAGES && SlotsInUse(m, c) == KernelSlots(PTES * PTES)
    ensures KERNEL_PAGES + Needed(m, c, 0, k) == CopyCost(k)
  {
    forall x: nat | x < USER_TABLES
      ensures Entry(m.page, c, x) == Absent
    {
      assert x !in KernelSlots(PTES * PTES);
      assert x !in SlotsInUse(m, c);
    }
    assert NewSlots(m, c, 0, k) == Range(0, (k + PTES - 1) / PTES);
  }

  /** copyuvm after v of hi pages: m is the state before it, n the state when it has the directory c. */
  ghost predicate Copying(m: Mem, n: Mem, t: Mem, d: nat, c: nat, v: nat, hi: nat) {
    v <= hi && Inv(t) && Untouched(n, t, c, 0, hi) && CopyingBehind(m, n, t, d, c, v, hi, 1)
  }

  ghost predicate CopyingBehind(m: Mem, n: Mem, t: Mem, d: nat, c: nat, v: nat, hi: nat, turns: nat) {
    if turns == 0 then
      && Takens(t) == Takens(m) && Copied(m, d, t, c, v) && Empty(t, c, v, USER_PAGES)
      && Slots(n, t, c, 0, v) && |t.free| + Needed(n, c, 0, v) == |n.free|
    else
      CopyingBehind(m, n, t, d, c, v, hi, turns - 1)
  }

  lemma CopyingIs(m: Mem, n: Mem, t: Mem, d: nat, c: nat, v: nat, hi: nat)
    ensures CopyingBehind(m, n, t, d, c, v, hi, 1) ==
            (Takens(t) == Takens(m) && Copied(m, d, t, c, v) && Empty(t, c, v, USER_PAGES) &&
             Slots(n, t, c, 0, v) && |t.free| + Needed(n, c, 0, v) == |n.free|)
  {
    assert CopyingBehind(m, n, t, d, c, v, hi, 1) == CopyingBehind(m, n, t, d, c, v, hi, 0);
  }

  lemma CopyingNext(m: Mem, n: Mem, o: Mem, t: Mem, d: nat, c: nat, v: nat, hi: nat)
    requires Copying(m, n, o, d, c, v, hi) && v < hi <= USER_PAGES && c in n.dirs
    requires Inv(t) && Untouched(o, t, c, v, v + 1) && Takens(t) == Takens(o) && CopiedAt(m, d, t, c, v)
    requires |t.free| == |o.free| - if Entry(o.page, c, v / PTES) == Absent then 2 else 1
    requires Entry(t.page, c, v / PTES).To?
    requires forall x: nat | x < PTES && x != v / PTES :: Entry(t.page, c, x) == Entry(o.page, c, x)
    ensures Copying(m, n, t, d, c, v + 1, hi)
  {
    CopyingIs(m, n, o, d, c, v, hi);
    UntouchedThen(n, o, t, c, 0, hi, v, v + 1, 0, hi);
    EmptyAfter(o, t, c, v, v + 1, v + 1, USER_PAGES);
    SlotsNext(n, o, t, c, 0, v);
    forall w: nat | w < v + 1
      ensures CopiedAt(m, d, t, c, w)
    {
      if w < v {
        UntouchedLeaf(o, t, c, v, v + 1, c, w);
        assert CopiedAt(m, d, o, c, w);
      }
    }
    CopyingIs(m, n, t, d, c, v + 1, hi);
  }

  /** The parent's page v, as it was before copyuvm. */
  lemma CopyingSource(m: Mem, n: Mem, t: Mem, d: nat, c: nat, v: nat, hi: nat)
    requires Copying(m, n, t, d, c, v, hi) && v < hi <= USER_PAGES && d in m.dirs && m.dirs <= n.dirs && Kept(m, n, m.dirs) && c != d
    ensures SameLeaf(m, t, d, v) && LeafOk(t, d, v)
    ensures var e := Lookup(t.page, d, v); e.To? ==> e.f < |t.page| && t.page[e.f].Bytes?
  {
    KeptHas(m, n, m.dirs, d, v);
    UntouchedLeaf(n, t, c, 0, hi, d, v);
    LeafHas(t, d, v);
    if Lookup(t.page, d, v).To? {
      PageHas(t, Lookup(t.page, d, v).f);
    }
  }

  /** copyuvm runs out at page v: there were too few pages from the start. */
  lemma CopyingShort(m: Mem, n: Mem, t: Mem, d: nat, c: nat, v: nat, hi: nat)
    requires Copying(m, n, t, d, c, v, hi) && v < hi <= USER_PAGES
    requires |t.free| < if Entry(t.page, c, v / PTES) == Absent then 2 else 1
    ensures |n.free| < Needed(n, c, 0, hi)
  {
    CopyingIs(m, n, t, d, c, v, hi);
    NeededNext(n, c, 0, v);
    NeededGrows(n, c, 0, v + 1, hi);
  }

  /** copyuvm comes to a page that is missing, before the free pages run out. */
  ghost predicate Gap(m: Mem, d: nat, k: nat) {
    exists v: nat :: v < k && Lookup(m.page, d, v) == Absent && (forall w: nat | w < v :: Lookup(m.page, d, w).To?) && |m.free| >= CopyCost(v)
  }

  lemma CopyingGap(m: Mem, n: Mem, t: Mem, d: nat, c: nat, v: nat, hi: nat)
    requires Copying(m, n, t, d, c, v, hi) && v < hi <= USER_PAGES && Lookup(m.page, d, v) == Absent
    requires |n.free| == |m.free| - KERNEL_PAGES && SlotsInUse(n, c) == KernelSlots(PTES * PTES)
    ensures Gap(m, d, hi)
  {
    CopyingIs(m, n, t, d, c, v, hi);
    NeededBlank(n, c, v);
    forall w: nat | w < v
      ensures Lookup(m.page, d, w).To?
    {
      assert CopiedAt(m, d, t, c, w);
    }
  }

  lemma CopyingNoGap(m: Mem, n: Mem, t: Mem, d: nat, c: nat, v: nat, hi: nat)
    requires Copying(m, n, t, d, c, v, hi) && v < hi <= USER_PAGES && Lookup(m.page, d, v).To?
    requires |n.free| == |m.free| - KERNEL_PAGES && SlotsInUse(n, c) == KernelSlots(PTES * PTES)
    requires |t.free| < if Entry(t.page, c, v / PTES) == Absent then 2 else 1
    ensures !Gap(m, d, hi)
  {
    CopyingIs(m, n, t, d, c, v, hi);
    forall w: nat | w < v
      ensures Lookup(m.page, d, w).To?
    {
      assert CopiedAt(m, d, t, c, w);
    }
    forall w: nat | w < hi && Lookup(m.page, d, w) == Absent
      ensures |m.free| < CopyCost(w)
    {
      NeededBlank(n, c, w);
      NeededNext(n, c, 0, v);
      NeededGrows(n, c, 0, v + 1, w);
    }
  }

  lemma CopiedNoGap(m: Mem, d: nat, t: Mem, c: nat, k: nat)
    requires Copied(m, d, t, c, k)
    ensures !Gap(m, d, k)
  {
    forall v: nat | v < k
      ensures Lookup(m.page, d, v).To?
    {
      assert CopiedAt(m, d, t, c, v);
    }
  }

  /** The user pages of d are exactly the first k. */
  ghost predicate Covers(m: Mem, d: nat, k: nat) {
    forall v: nat | v < USER_PAGES :: Lookup(m.page, d, v).To? <==> v < k
  }

  lemma CopiedCovers(m: Mem, d: nat, t: Mem, c: nat, k: nat)
    requires Copied(m, d, t, c, k) && Empty(t, c, k, USER_PAGES)
    ensures Covers(t, c, k)
  {
    forall v: nat | v < USER_PAGES
      ensures Lookup(t.page, c, v).To? <==> v < k
    {
      assert v < k ==> CopiedAt(m, d, t, c, v);
    }
  }

  lemma CoversKept(m: Mem, t: Mem, s: set<nat>, b: nat, k: nat)
    requires Kept(m, t, s) && b in s && Covers(m, b, k)
    ensures Covers(t, b, k)
  {
    forall v: nat | v < USER_PAGES
      ensures Lookup(t.page, b, v).To? <==> v < k
    {
      KeptHas(m, t, s, b, v);
    }
  }

  lemma KernelKept(m: Mem, t: Mem, s: set<nat>, b: nat, data: nat)
    requires Kept(m, t, s) && b in s && KernelUpTo(m, data, b, PTES * PTES)
    ensures KernelUpTo(t, data, b, PTES * PTES)
  {
    forall w: nat | USER_PAGES <= w < PTES * PTES
      ensures Lookup(t.page, b, w) == KernelPte(data, w)
    {
      KeptHas(m, t, s, b, w);
    }
  }

  lemma KernelUntouched(m: Mem, t: Mem, d: nat, lo: nat, hi: nat, data: nat)
    requires Untouched(m, t, d, lo, hi) && hi <= USER_PAGES && d in m.dirs && KernelUpTo(m, data, d, PTES * PTES)
    ensures KernelUpTo(t, data, d, PTES * PTES)
  {
    forall w: nat | USER_PAGES <= w < PTES * PTES
      ensures Lookup(t.page, d, w) == KernelPte(data, w)
    {
      UntouchedLeaf(m, t, d, lo, hi, d, w);
    }
  }

  lemma CoversGrown(m: Mem, t: Mem, d: nat, lo: nat, hi: nat)
    requires Covers(m, d, lo) && d in m.dirs && lo <= hi <= USER_PAGES
    requires Untouched(m, t, d, lo, hi) && (Zeroed(t, d, lo, hi) || Empty(t, d, lo, hi))
    ensures Covers(t, d, if Zeroed(t, d, lo, hi) then hi else lo)
  {
    forall v: nat | v < USER_PAGES
      ensures Lookup(t.page, d, v).To? <==> v < if Zeroed(t, d, lo, hi) then hi else lo
    {
      assert Zeroed(t, d, lo, hi) && lo <= v < hi ==> Holds(t, d, v, Cell(true, true, ZeroPage()));
      if !(lo <= v < hi) {
        UntouchedLeaf(m, t, d, lo, hi, d, v);
      }
    }
  }

  lemma CoversShrunk(m: Mem, t: Mem, d: nat, lo: nat, hi: nat)
    requires Covers(m, d, hi) && d in m.dirs && lo <= hi <= USER_PAGES && Untouched(m, t, d, lo, hi) && Empty(t, d, lo, hi)
    ensures Covers(t, d, lo)
  {
    forall v: nat | v < USER_PAGES
      ensures Lookup(t.page, d, v).To? <==> v < lo
    {
      if !(lo <= v < hi) {
        UntouchedLeaf(m, t, d, lo, hi, d, v);
      }
    }
  }

  /** A change of one entry's permissions unmaps nothing. */
  lemma CoversFlags(m: Mem, t: Mem, d: nat, v: nat, k: nat)
    requires Covers(m, d, k) && d in m.dirs && v < USER_PAGES && Untouched(m, t, d, v, v + 1)
    requires Lookup(m.page, d, v).To? && Lookup(t.page, d, v).To?
    ensures Covers(t, d, k)
  {
    forall w: nat | w < USER_PAGES
      ensures Lookup(t.page, d, w).To? <==> w < k
    {
      if w != v {
        UntouchedLeaf(m, t, d, v, v + 1, d, w);
      }
    }
  }

  // ----- allocuvm's loop

  /** allocuvm comes to a page that is mapped already, before the free pages run out. */
  ghost predicate Remaps(m: Mem, d: nat, lo: nat, hi: nat) {
    exists v: nat :: lo <= v < hi && Lookup(m.page, d, v).To? && Empty(m, d, lo, v) && |m.free| > Needed(m, d, lo, v)
  }

  /** allocuvm has mapped pages lo up to v of d, which m did not have. */
  ghost predicate Growing(m: Mem, t: Mem, d: nat, lo: nat, v: nat) {
    Inv(t) && Untouched(m, t, d, lo, v) && GrowingBehind(m, t, d, lo, v, 1)
  }

  ghost predicate GrowingBehind(m: Mem, t: Mem, d: nat, lo: nat, v: nat, turns: nat) {
    if turns == 0 then
      && Takens(t) == Takens(m) && Zeroed(t, d, lo, v) && Empty(m, d, lo, v)
      && Slots(m, t, d, lo, v) && |t.free| + Needed(m, d, lo, v) == |m.free|
    else
      GrowingBehind(m, t, d, lo, v, turns - 1)
  }

  lemma GrowingIs(m: Mem, t: Mem, d: nat, lo: nat, v: nat)
    ensures GrowingBehind(m, t, d, lo, v, 1) ==
            (Takens(t) == Takens(m) && Zeroed(t, d, lo, v) && Empty(m, d, lo, v) &&
             Slots(m, t, d, lo, v) && |t.free| + Needed(m, d, lo, v) == |m.free|)
  {
    assert GrowingBehind(m, t, d, lo, v, 1) == GrowingBehind(m, t, d, lo, v, 0);
  }

  lemma GrowingStart(m: Mem, d: nat, lo: nat)
    requires Inv(m) && d in m.dirs
    ensures Growing(m, m, d, lo, lo)
  {
    UntouchedSelf(m, d, lo, lo);
    assert NewSlots(m, d, lo, lo) == {};
    GrowingIs(m, m, d, lo, lo);
  }

  /** Page v is as it was before allocuvm. */
  lemma GrowingLookup(m: Mem, t: Mem, d: nat, lo: nat, v: nat)
    requires Growing(m, t, d, lo, v) && d in m.dirs && v < USER_PAGES
    ensures Lookup(t.page, d, v) == Lookup(m.page, d, v)
  {
    UntouchedLeaf(m, t, d, lo, v, d, v);
  }

  lemma GrowingNext(m: Mem, n: Mem, t: Mem, d: nat, lo: nat, v: nat)
    requires Growing(m, n, d, lo, v) && lo <= v < USER_PAGES && d in m.dirs && Lookup(n.page, d, v) == Absent
    requires Inv(t) && Untouched(n, t, d, v, v + 1) && Takens(t) == Takens(n) && Holds(t, d, v, Cell(true, true, ZeroPage()))
    requires |t.free| == |n.free| - if Entry(n.page, d, v / PTES) == Absent then 2 else 1
    requires Entry(t.page, d, v / PTES).To?
    requires forall x: nat | x < PTES && x != v / PTES :: Entry(t.page, d, x) == Entry(n.page, d, x)
    ensures Growing(m, t, d, lo, v + 1)
  {
    GrowingIs(m, n, d, lo, v);
    GrowingLookup(m, n, d, lo, v);
    UntouchedThen(m, n, t, d, lo, v, v, v + 1, lo, v + 1);
    ZeroedNext(n, t, d, lo, v);
    SlotsNext(m, n, t, d, lo, v);
    GrowingIs(m, t, d, lo, v + 1);
  }

  lemma GrowingRemap(m: Mem, t: Mem, d: nat, lo: nat, v: nat, hi: nat)
    requires Growing(m, t, d, lo, v) && lo <= v < hi <= USER_PAGES && d in m.dirs && Lookup(t.page, d, v).To? && t.free != []
    ensures Remaps(m, d, lo, hi)
  {
    GrowingIs(m, t, d, lo, v);
    GrowingLookup(m, t, d, lo, v);
  }

  /** There are too few pages for page v. */
  lemma GrowingShort(m: Mem, t: Mem, d: nat, lo: nat, v: nat, hi: nat)
    requires Inv(m) && Growing(m, t, d, lo, v) && lo <= v < hi <= USER_PAGES && d in m.dirs
    requires |t.free| < if Entry(t.page, d, v / PTES) == Absent then 2 else 1
    ensures !Remaps(m, d, lo, hi) && !(Empty(m, d, lo, hi) && |m.free| >= Needed(m, d, lo, hi))
    ensures Untouched(m, t, d, lo, hi)
  {
    GrowingIs(m, t, d, lo, v);
    GrowingLookup(m, t, d, lo, v);
    NeededNext(m, d, lo, v);
    NeededGrows(m, d, lo, v + 1, hi);
    ShortOfRemap(m, d, lo, v, hi);
    UntouchedSelf(m, d, lo, hi);
    UntouchedThen(m, m, t, d, lo, hi, lo, v, lo, hi);
  }

  lemma ShortOfRemap(m: Mem, d: nat, lo: nat, v: nat, hi: nat)
    requires lo <= v < hi <= USER_PAGES && Empty(m, d, lo, v)
    requires |m.free| < Needed(m, d, lo, v + 1) && (Lookup(m.page, d, v).To? ==> |m.free| <= Needed(m, d, lo, v))
    ensures !Remaps(m, d, lo, hi)
  {
    forall w: nat | lo <= w < hi && Lookup(m.page, d, w).To? && Empty(m, d, lo, w)
      ensures |m.free| <= Needed(m, d, lo, w)
    {
      assert w >= v;
      if w > v {
        NeededGrows(m, d, lo, v + 1, w);
      }
    }
  }

  lemma GrowingEnd(m: Mem, t: Mem, d: nat, lo: nat, hi: nat)
    requires Growing(m, t, d, lo, hi) && lo <= hi <= USER_PAGES
    ensures Empty(m, d, lo, hi) && !Remaps(m, d, lo, hi) && Takens(t) == Takens(m)
    ensures Zeroed(t, d, lo, hi) && Slots(m, t, d, lo, hi) && |t.free| + Needed(m, d, lo, hi) == |m.free|
  {
    GrowingIs(m, t, d, lo, hi);
  }

  /** Pages lo up to mid, then mid up to hi, cost what lo up to hi cost. */
  lemma NeededThen(m: Mem, t: Mem, d: nat, lo: nat, mid: nat, hi: nat)
    requires Slots(m, t, d, lo, mid) && lo <= mid <= hi <= USER_PAGES
    ensures Needed(m, d, lo, hi) == Needed(m, d, lo, mid) + Needed(t, d, mid, hi)
  {
    assert NewSlots(m, d, lo, hi) == NewSlots(m, d, lo, mid) + NewSlots(t, d, mid, hi);
    assert NewSlots(m, d, lo, mid) !! NewSlots(t, d, mid, hi);
  }

  lemma SlotsThen(m: Mem, t: Mem, u: Mem, d: nat, lo: nat, mid: nat, hi: nat)
    requires Slots(m, t, d, lo, mid) && Slots(t, u, d, mid, hi) && lo <= mid <= hi <= USER_PAGES
    ensures Slots(m, u, d, lo, hi)
  {}
}
