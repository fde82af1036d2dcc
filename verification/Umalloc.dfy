/** umalloc.c itself: the headers in memory and the walks over them, proved against Heap. */
module Umalloc {
  import opened Params
  import opened Heap

  const HEADER := 8          // sizeof(Header)
  const MIN_CORE := 4096     // morecore's least request
  const UINT := 0x1_0000_0000

  // ----- Sizes

  /** malloc's nunits, in 32-bit arithmetic: the bytes rounded up to units, and one for the header. */
  function Units(nbytes: nat): (n: nat)
    requires nbytes < UINT
    ensures 0 < n < UINT
  {
    (nbytes + HEADER - 1) % UINT / HEADER + 1
  }

  /** morecore's request, in units. */
  function Request(n: nat): nat { if n < MIN_CORE then MIN_CORE else n }

  /** What sbrk is asked for: a 32-bit product, read as a signed int. */
  function Asked(units: nat): int {
    var x := units * HEADER % UINT;
    if x >= UINT / 2 then x - UINT else x
  }

  /** The units sbrk gives when it succeeds. */
  function Granted(units: nat): nat { if Asked(units) > 0 then Asked(units) / HEADER else 0 }

  /** The units behind the header hold nbytes, unless the rounding up wraps around; then they are the
      fewest that do. */
  lemma WhenUnitsSuffice(nbytes: nat)
    requires nbytes < UINT
    ensures (Units(nbytes) - 1) * HEADER >= nbytes <==> nbytes <= UINT - HEADER
    ensures nbytes <= UINT - HEADER ==> (Units(nbytes) - 2) * HEADER < nbytes
  {}

  /** morecore asks for what is needed, and for no less than 4096 units. */
  lemma RequestIs(n: nat)
    ensures Request(n) >= n && Request(n) >= 4096 && (Request(n) > 4096 ==> Request(n) == n)
  {}

  /** A request that wraps: one unit for almost 4 GB. */
  lemma HugeRequestWraps()
    ensures Units(UINT - 1) == 1
  {}

  /** sbrk gives the units morecore records exactly when their byte count fits a signed int. */
  lemma WhenGrantIsWhole(units: nat)
    requires 0 < units < UINT
    ensures Granted(units) == units <==> units * HEADER < UINT / 2
  {
    ProductWraps(units);
  }

  lemma ProductWraps(units: nat)
    requires units < UINT
    ensures exists k: nat :: k < HEADER && units * HEADER == k * UINT + units * HEADER % UINT
  {
    var k := units * HEADER / UINT;
    assert units * HEADER == k * UINT + units * HEADER % UINT;
  }

  /** So malloc is backed by memory, and its block holds what was asked for, exactly up to this size. */
  lemma WhenMallocServes(nbytes: nat)
    requires nbytes < UINT
    ensures Granted(Request(Units(nbytes))) == Request(Units(nbytes)) <==> nbytes <= 0x7FFF_FFF0 || nbytes > UINT - HEADER
    ensures Granted(Request(Units(nbytes))) == Request(Units(nbytes)) && (Units(nbytes) - 1) * HEADER >= nbytes
       <==> nbytes <= 0x7FFF_FFF0
  {
    WhenGrantIsWhole(Request(Units(nbytes)));
    WhenUnitsSuffice(nbytes);
  }

  /** Two requests past it: sbrk is asked for nothing, and for less than nothing, while malloc goes on as
      if it had been given half a billion and a quarter of a billion units. */
  lemma UnbackedRequests()
    ensures Units(0xFFFF_FFF8) == 0x2000_0000 && Asked(Request(0x2000_0000)) == 0
    ensures Units(0x7FFF_FFF8) == 0x1000_0000 && Asked(Request(0x1000_0000)) == -0x8000_0000
    ensures Granted(Request(0x2000_0000)) == Granted(Request(0x1000_0000)) == 0
  {}

  // ----- The ring in memory

  ghost predicate LinkedAt(ptr: map<nat, nat>, c: seq<nat>, i: nat)
    requires i < |c|
  {
    c[i] in ptr && ptr[c[i]] == c[After(i, |c|)]
  }

  ghost predicate Linked(ptr: map<nat, nat>, c: seq<nat>) {
    forall i: nat | i < |c| :: LinkedAt(ptr, c, i)
  }

  lemma LinkCut(ptr: map<nat, nat>, c: seq<nat>, k: nat)
    requires Linked(ptr, c) && Rising(c) && 0 < k < |c|
    ensures c[k] in ptr && Linked(ptr[c[k - 1] := ptr[c[k]]], Cut(c, k))
  {
    assert LinkedAt(ptr, c, k) && LinkedAt(ptr, c, k - 1);
    var p, r := ptr[c[k - 1] := ptr[c[k]]], Cut(c, k);
    forall i: nat | i < |r|
      ensures LinkedAt(p, r, i)
    {
      assert LinkedAt(ptr, c, if i < k then i else i + 1);
      assert r[i] == c[if i < k then i else i + 1];
      var j := After(i, |r|);
      assert r[j] == c[if j < k then j else j + 1];
    }
  }

  lemma LinkInsert(ptr: map<nat, nat>, c: seq<nat>, k: nat, bp: nat)
    requires Linked(ptr, c) && Rising(c) && k < |c| && bp !in c
    ensures c[k] in ptr && Linked(ptr[bp := ptr[c[k]]][c[k] := bp], c[..k + 1] + [bp] + c[k + 1..])
  {
    assert LinkedAt(ptr, c, k);
    var p, r := ptr[bp := ptr[c[k]]][c[k] := bp], c[..k + 1] + [bp] + c[k + 1..];
    forall i: nat | i < |r|
      ensures LinkedAt(p, r, i)
    {
      if i != k + 1 {
        assert LinkedAt(ptr, c, if i <= k then i else i - 1);
      }
      assert r[i] == (if i <= k then c[i] else if i == k + 1 then bp else c[i - 1]);
      var j := After(i, |r|);
      assert r[j] == (if j <= k then c[j] else if j == k + 1 then bp else c[j - 1]);
    }
  }

  /** A pointer outside the list does not matter. */
  lemma LinkOther(ptr: map<nat, nat>, c: seq<nat>, a: nat, v: nat)
    requires Linked(ptr, c) && a !in c
    ensures Linked(ptr[a := v], c)
  {
    var p := ptr[a := v];
    forall i: nat | i < |c|
      ensures LinkedAt(p, c, i)
    {
      assert LinkedAt(ptr, c, i);
    }
  }

  /** free's pointer updates, in its four cases. */
  lemma LinkFreed(ptr: map<nat, nat>, h: Heap, k: nat, bp: nat, ptr': map<nat, nat>)
    requires Inv(h) && Between(h.c, k, bp) && bp in h.live && Linked(ptr, h.c)
    requires var right := k + 1 < |h.c| && End(h, bp) == h.c[k + 1];
             var left := End(h, h.c[k]) == bp;
             && h.c[k] in ptr && (right ==> h.c[k + 1] in ptr)
             && var succ := if right then ptr[h.c[k + 1]] else ptr[h.c[k]];
             ptr' == ptr[bp := succ][h.c[k] := if left then succ else bp]
    ensures Linked(ptr', Freed(h, k, bp).c)
  {
    assert LiveOk(h, bp);
    var t := Absorbed(h, k, bp);
    assert t.c[k] == t.c[..k + 1][k] == h.c[k];
    var right := k + 1 < |h.c| && End(h, bp) == h.c[k + 1];
    var p1 := if right then ptr[h.c[k] := ptr[h.c[k + 1]]] else ptr;
    if right {
      LinkCut(ptr, h.c, k + 1);
      CutHas(h.c, k + 1, bp);
    }
    assert Linked(p1, t.c) && bp !in t.c;
    if End(h, h.c[k]) == bp {
      LinkOther(p1, t.c, bp, p1[h.c[k]]);
      assert ptr' == p1[bp := p1[h.c[k]]];
    } else {
      LinkInsert(p1, t.c, k, bp);
      assert ptr' == p1[bp := p1[h.c[k]]][h.c[k] := bp];
    }
  }

  // ----- Walking the ring

  /** t steps on from index j in a ring of n. */
  function Nth(j: nat, t: nat, n: nat): nat
    requires j < n && t <= n
  {
    if j + t < n then j + t else j + t - n
  }

  /** free's loop ends at c[i] exactly when bp belongs right after it. */
  lemma StopsAt(h: Heap, i: nat, bp: nat, next: nat)
    requires Sized(h) && Rising(h.c) && i < |h.c| && bp > h.c[0] && bp !in h.c && next == h.c[After(i, |h.c|)]
    ensures var p := h.c[i];
            (bp > p && bp < next) || (p >= next && (bp > p || bp < next)) <==> Between(h.c, i, bp)
  {}

  lemma OnePlace(c: seq<nat>, i: nat, k: nat, bp: nat)
    requires Rising(c) && Between(c, i, bp) && Between(c, k, bp)
    ensures i == k
  {}

  /** The heap is in order and the ring runs through its free list. It stays closed unless KeptIs opens
      it: code that only hands it on need not look inside. */
  ghost predicate Kept(ptr: map<nat, nat>, h: Heap) { KeptBehind(ptr, h, 2) }

  ghost predicate KeptBehind(ptr: map<nat, nat>, h: Heap, turns: nat) {
    if turns == 0 then Inv(h) && Linked(ptr, h.c) else KeptBehind(ptr, h, turns - 1)
  }

  lemma KeptIs(ptr: map<nat, nat>, h: Heap)
    ensures Kept(ptr, h) <==> Inv(h) && Linked(ptr, h.c)
  {
    assert KeptBehind(ptr, h, 2) == KeptBehind(ptr, h, 1) == KeptBehind(ptr, h, 0);
  }

  lemma RingOf(ptr: map<nat, nat>, h: Heap)
    requires Kept(ptr, h)
    ensures Linked(ptr, h.c) && Sized(h) && Rising(h.c) && h.size[h.c[0]] == 0
  {
    KeptIs(ptr, h);
  }

  /** free turned h into t, taking bp in after c[k]; closed unless FreedToIs opens it. */
  ghost predicate FreedTo(h: Heap, k: nat, bp: nat, t: Heap) { FreedBehind(h, k, bp, t, 2) }

  ghost predicate FreedBehind(h: Heap, k: nat, bp: nat, t: Heap, turns: nat) {
    if turns == 0 then Inv(h) && Between(h.c, k, bp) && bp in h.live && t == Freed(h, k, bp)
    else FreedBehind(h, k, bp, t, turns - 1)
  }

  lemma FreedToIs(h: Heap, k: nat, bp: nat, t: Heap)
    ensures FreedTo(h, k, bp, t) <==> Inv(h) && Between(h.c, k, bp) && bp in h.live && t == Freed(h, k, bp)
  {
    assert FreedBehind(h, k, bp, t, 2) == FreedBehind(h, k, bp, t, 1) == FreedBehind(h, k, bp, t, 0);
  }

  /** sbrk's answer: nothing, or the old break, with the units that a call for a negative amount takes
      away. */
  datatype Core = None | At(a: nat, lost: set<nat>)

  /** The header `base`, `freep` (0 when null), and the header fields in memory. */
  class Allocator {
    const base: nat
    var ptr: map<nat, nat>
    var size: map<nat, nat>
    var freep: nat
    ghost var c: seq<nat>
    ghost var live: set<nat>
    ghost var own: map<nat, nat>
    ghost var given: set<nat>   // the units sbrk has given, and not taken away

    ghost function View(): Heap
      reads this
    {
      Heap(c, size, live, own)
    }

    /** The list is in place, and freep points into it. */
    ghost predicate Ready()
      reads this
    {
      base > 0 && c != [] && c[0] == base && freep in c && Kept(ptr, View())
    }

    /** Before the first malloc there is nothing; afterwards the list is in place. */
    ghost predicate Valid()
      reads this
    {
      base > 0 && if freep == 0 then c == [] && live == {} && own == map[] else Ready()
    }

    /** Every unit of every block, free or in use, is one that sbrk gave. */
    ghost predicate Backed()
      reads this
    {
      own.Keys == given
    }

    /** What sbrk may answer to a request for so many units: the break, which lies above everything it
        gave; it takes units away only when asked for a negative amount. */
    ghost predicate Break(core: Core, units: nat)
      reads this
    {
      core.At? ==>
        && core.a > base && (forall u | u in given :: u < core.a)
        && core.lost <= given && (Asked(units) > 0 ==> core.lost == {})
    }

    constructor (base: nat)
      requires base > 0
      ensures Valid() && Backed() && live == {} && own == map[]
    {
      this.base, ptr, size, freep := base, map[], map[], 0;
      c, live, own, given := [], {}, map[], {};
    }

    /** free's search: the free block right before bp. */
    method FindPlace(bp: nat) returns (p: nat, ghost k: nat)
      requires Ready() && bp in live
      ensures Between(c, k, bp) && p == c[k]
    {
      KeptIs(ptr, View());
      assert LiveOk(View(), bp);
      k := PlaceFor(c, bp);
      p := freep;
      ghost var n, i: nat :| n == |c| && i < n && c[i] == p;
      assert LinkedAt(ptr, c, i);
      StopsAt(View(), i, bp, ptr[p]);
      while !(bp > p && bp < ptr[p])
        invariant i < n && c[i] == p && LinkedAt(ptr, c, i)
        invariant (bp > p && bp < ptr[p]) || (p >= ptr[p] && (bp > p || bp < ptr[p])) <==> Between(c, i, bp)
        decreases if i <= k then k - i else k + n - i
      {
        if p >= ptr[p] && (bp > p || bp < ptr[p]) {
          break;
        }
        p, i := ptr[p], After(i, n);
        assert LinkedAt(ptr, c, i);
        StopsAt(View(), i, bp, ptr[p]);
      }
      OnePlace(c, i, k, bp);
    }

    /** free: ap is a pointer malloc returned. */
    method Free(ap: nat) returns (ghost k: nat)
      requires Ready() && ap > 0 && ap - 1 in live
      modifies this`ptr, this`size, this`freep, this`c, this`live, this`own
      ensures Ready() && live == old(live) - {ap - 1} && own.Keys == old(own).Keys
      ensures forall a | a in live :: a in size && a in old(size) && size[a] == old(size)[a]
      ensures k < |old(c)| && freep == old(c)[k] && FreedTo(old(View()), k, ap - 1, View())
    {
      ghost var h, ptr0 := View(), ptr;
      var bp := ap - 1;
      var p: nat;
      p, k := FindPlace(bp);
      ghost var t := FreeSummary(ptr, h, k, bp);
      if bp + size[bp] == ptr[p] {
        size, ptr := size[bp := size[bp] + size[ptr[p]]], ptr[bp := ptr[ptr[p]]];
      } else {
        ptr := ptr[bp := ptr[p]];
      }
      if p + size[p] == bp {
        size, ptr := size[p := size[p] + size[bp]], ptr[p := ptr[bp]];
      } else {
        ptr := ptr[p := bp];
      }
      freep := p;
      c, live, own := t.c, t.live, t.own;
    }

    /** morecore: fresh units become a free block; `ok` is false where the source returns 0. */
    method Morecore(n: nat, core: Core) returns (ok: bool)
      requires Ready() && Backed() && Break(core, Request(n))
      modifies this
      ensures Ready() && ok == core.At? && live == old(live)
      ensures forall a | a in live :: a in size && a in old(size) && size[a] == old(size)[a]
      ensures !ok ==> View() == old(View()) && freep == old(freep) && given == old(given)
      ensures ok ==> own.Keys == old(own).Keys + Span(core.a, Request(n)) && Fits(View(), n)
      ensures ok ==> given == old(given) - core.lost + Span(core.a, Granted(Request(n)))
    {
      var nu := if n < MIN_CORE then MIN_CORE else n;
      match core
      case None =>
        KeptIs(ptr, View());
        return false;
      case At(hp, lost) =>
        ghost var h := View();
        given := given - lost + Span(hp, Granted(nu));
        ObtainSummary(ptr, h, hp, nu);
        size := size[hp := nu];
        live, own := live + {hp}, Claim(own, hp, nu);
        ghost var k := Free(hp + 1);
        FreedFits(Obtained(h, hp, nu), k, hp, View(), n);
        assert live == old(live);
        return true;
    }

    /** malloc's search: the first free block of at least n units, going round from freep. */
    method FirstFit(n: nat) returns (found: bool, prevp: nat, p: nat, ghost k: nat)
      requires Ready() && n > 0
      ensures found ==> 0 < k < |c| && prevp == c[k - 1] && p == c[k] && p in size && size[p] >= n
      ensures if found then FirstFrom(View(), freep, k, n) else !Fits(View(), n)
    {
      ghost var j := WalkStart(ptr, View(), freep);
      ghost var t := 1;
      prevp := freep;
      p := ptr[prevp];
      while true
        invariant 1 <= t <= |c| && prevp == c[Nth(j, t - 1, |c|)] && p == c[Nth(j, t, |c|)]
        invariant Tried(View(), j, t, n) && p in size && p in ptr
        decreases |c| - t
      {
        if size[p] >= n {
          found, k := true, Nth(j, t, |c|);
          BeforeIt(ptr, View(), j, t);
          FirstIs(View(), j, t, n);
          return;
        }
        WalkStep(ptr, View(), j, t);
        if p == freep {
          AllSmall(View(), j, t, n);
          found, k := false, 0;
          return;
        }
        prevp, p, t := p, ptr[p], t + 1;
      }
    }

    /** Hand out n units of the free block p, which follows prevp. */
    method Allot(n: nat, prevp: nat, p: nat, ghost k: nat) returns (a: nat)
      requires Ready() && n > 0 && 0 < k < |c| && prevp == c[k - 1] && p == c[k] && p in size && size[p] >= n
      modifies this`ptr, this`size, this`freep, this`c, this`live, this`own
      ensures Ready() && Handed(old(View()), View(), a, n) && freep == prevp
      ensures a + n == p + old(size)[p]
    {
      ghost var t := AllotSummary(ptr, View(), k, n);
      a := p;
      if size[p] == n {
        ptr := ptr[prevp := ptr[p]];
      } else {
        size := size[p := size[p] - n];
        a := p + size[p];
        size := size[a := n];
      }
      freep := prevp;
      c, live, own := t.c, t.live, t.own;
    }

    /** malloc's loop up to a turn of the ring: the end of the first block that is large enough. */
    method TakeFirst(n: nat) returns (found: bool, a: nat)
      requires Ready() && n > 0
      modifies this`ptr, this`size, this`freep, this`c, this`live, this`own
      ensures Ready() && found == Fits(old(View()), n)
      ensures found ==> Handed(old(View()), View(), a, n) && FromFirst(old(View()), old(freep), n, a, freep)
      ensures !found ==> View() == old(View()) && freep == old(freep)
    {
      var prevp: nat, p: nat;
      ghost var k: nat;
      found, prevp, p, k := FirstFit(n);
      a := 0;
      if found {
        a := Allot(n, prevp, p, k);
      }
    }

    /** malloc once no block is large enough: morecore, and round again from the new freep. */
    method TakeFresh(n: nat, core: Core) returns (ok: bool, a: nat)
      requires Ready() && Backed() && n > 0 && Break(core, Request(n))
      modifies this
      ensures Ready() && ok == core.At?
      ensures forall x | x in old(live) :: x in size && x in old(size) && size[x] == old(size)[x]
      ensures !ok ==> View() == old(View()) && freep == old(freep) && given == old(given)
      ensures ok ==> a !in old(live) && live == old(live) + {a} && a in size && size[a] == n
      ensures ok ==> own.Keys == old(own).Keys + Span(core.a, Request(n))
      ensures ok ==> given == old(given) - core.lost + Span(core.a, Granted(Request(n)))
    {
      a := 0;
      ok := Morecore(n, core);
      if ok {
        ok, a := TakeFirst(n);
      }
    }

    /** malloc's first call: the list is the empty block `base`. */
    method SetUp(ghost n: nat)
      requires Valid() && Backed() && n > 0
      modifies this`freep, this`ptr, this`size, this`c
      ensures Ready() && Backed() && (Fits(View(), n) <==> Fits(old(View()), n))
      ensures Fits(View(), n) ==> View() == old(View()) && freep == old(freep)
      ensures forall a | a in live :: a in size && a in old(size) && size[a] == old(size)[a]
    {
      if freep == 0 {
        freep, ptr, size := base, ptr[base := base], size[base := 0];
        c := [base];
        EmptySummary(ptr, View());
      }
      KeptIs(ptr, View());
    }

    /** malloc: a block of Units(nbytes) units that shares none with any block in use, or 0 when no free
        block is large enough and sbrk gives nothing. sbrk is asked at most once, and only then: `core`
        is what it would answer. After morecore the walk starts over from the new freep. Afterwards all
        units are backed by memory, unless morecore asked for a byte count that wraps around. */
    method Malloc(nbytes: nat, core: Core) returns (r: nat, ghost grown: bool)
      requires Valid() && Backed() && nbytes < UINT && Break(core, Request(Units(nbytes)))
      modifies this
      ensures Ready()
      ensures r == 0 <==> core.None? && !Fits(old(View()), Units(nbytes))
      ensures r == 0 ==> live == old(live) && own == old(own)
      ensures r > 0 ==> r - 1 !in old(live) && live == old(live) + {r - 1} && r - 1 in size && size[r - 1] == Units(nbytes)
      ensures forall a | a in old(live) :: a in size && a in old(size) && size[a] == old(size)[a]
      ensures grown <==> core.At? && !Fits(old(View()), Units(nbytes))
      ensures r > 0 && !grown ==> FromFirst(old(View()), old(freep), Units(nbytes), r - 1, freep)
      ensures own.Keys == old(own).Keys + if grown then Span(core.a, Request(Units(nbytes))) else {}
      ensures grown ==> given == old(given) - core.lost + Span(core.a, Granted(Request(Units(nbytes))))
      ensures !grown ==> given == old(given)
      ensures Backed() <==> !grown || nbytes <= 0x7FFF_FFF0 || nbytes > UINT - HEADER
    {
      var n := Units(nbytes);
      grown := false;
      SetUp(n);
      KeptIs(ptr, View());
      var found, a := TakeFirst(n);
      if !found {
        var ok: bool;
        ok, a := TakeFresh(n, core);
        if !ok {
          return 0, grown;
        }
        grown := true;
        BackedWhen(nbytes, old(given), core);
      }
      r := a + 1;
    }
  }

  /** Recorded and given units agree exactly when the request did not wrap. */
  lemma BackedWhen(nbytes: nat, given: set<nat>, core: Core)
    requires nbytes < UINT && core.At? && (forall u | u in given :: u < core.a)
    requires core.lost <= given && (Asked(Request(Units(nbytes))) > 0 ==> core.lost == {})
    ensures given + Span(core.a, Request(Units(nbytes))) == given - core.lost + Span(core.a, Granted(Request(Units(nbytes))))
       <==> nbytes <= 0x7FFF_FFF0 || nbytes > UINT - HEADER
  {
    var n := Request(Units(nbytes));
    WhenMallocServes(nbytes);
    SpanIs(core.a, n);
    SpanIs(core.a, Granted(n));
    if Granted(n) != n {
      SpansDiffer(given, core, n, Granted(n));
    }
  }

  lemma SpansDiffer(given: set<nat>, core: Core, n: nat, m: nat)
    requires core.At? && n != m && (forall u | u in given :: u < core.a)
    ensures given + Span(core.a, n) != given - core.lost + Span(core.a, m)
  {
    SpanIs(core.a, n);
    SpanIs(core.a, m);
    var u := core.a + if n < m then n else m;
    assert u in Span(core.a, n) <==> u !in Span(core.a, m);
  }

  /** a is a new block in use of n units; the other blocks in use and the units are what they were. */
  ghost predicate Handed(h: Heap, t: Heap, a: nat, n: nat) {
    && a !in h.live && t.live == h.live + {a} && a in t.size && t.size[a] == n && t.own.Keys == h.own.Keys
    && forall b | b in h.live :: b in t.size && b in h.size && t.size[b] == h.size[b]
  }

  lemma EmptySummary(ptr: map<nat, nat>, h: Heap)
    requires |h.c| == 1 && h.c[0] in h.size && h.size[h.c[0]] == 0 && h.live == {} && h.own == map[]
    requires h.c[0] in ptr && ptr[h.c[0]] == h.c[0]
    ensures Kept(ptr, h)
  {
    KeptIs(ptr, h);
  }

  lemma AllotSummary(ptr: map<nat, nat>, h: Heap, k: nat, n: nat) returns (t: Heap)
    requires Kept(ptr, h) && n > 0 && 0 < k < |h.c| && h.c[k] in h.size && h.size[h.c[k]] >= n
    ensures h.c[k] in ptr && t.c != [] && t.c[0] == h.c[0] && h.c[k - 1] in t.c
    ensures var p := h.c[k];
            if h.size[p] == n then t.size == h.size && Kept(ptr[h.c[k - 1] := ptr[p]], t) && Handed(h, t, p, n)
            else
              var rest := h.size[p] - n;
              t.size == h.size[p := rest][p + rest := n] && Kept(ptr, t) && Handed(h, t, p + rest, n)
  {
    if h.size[h.c[k]] == n {
      t := AllotWhole(ptr, h, k);
    } else {
      t := AllotPart(ptr, h, k, n);
    }
  }

  lemma AllotWhole(ptr: map<nat, nat>, h: Heap, k: nat) returns (t: Heap)
    requires Kept(ptr, h) && 0 < k < |h.c| && h.c[k] in h.size && h.size[h.c[k]] > 0
    ensures h.c[k] in ptr && t.c != [] && t.c[0] == h.c[0] && h.c[k - 1] in t.c && t.size == h.size
    ensures Kept(ptr[h.c[k - 1] := ptr[h.c[k]]], t) && Handed(h, t, h.c[k], h.size[h.c[k]])
  {
    KeptIs(ptr, h);
    var p := h.c[k];
    assert LinkedAt(ptr, h.c, k) && p != h.c[0] && IsBlock(h, p);
    t := TakeWhole(h, k);
    TakeWholeKeepsInv(h, k);
    LinkCut(ptr, h.c, k);
    assert t.c[k - 1] == h.c[k - 1];
    assert p in t.live && LiveOk(t, p);
    KeptIs(ptr[h.c[k - 1] := ptr[p]], t);
  }

  lemma AllotPart(ptr: map<nat, nat>, h: Heap, k: nat, n: nat) returns (t: Heap)
    requires Kept(ptr, h) && 0 < k < |h.c| && h.c[k] in h.size && 0 < n < h.size[h.c[k]]
    ensures h.c[k] in ptr && t.c != [] && t.c[0] == h.c[0] && h.c[k - 1] in t.c
    ensures var p, rest := h.c[k], h.size[h.c[k]] - n;
            t.size == h.size[p := rest][p + rest := n] && Kept(ptr, t) && Handed(h, t, p + rest, n)
  {
    KeptIs(ptr, h);
    var p := h.c[k];
    assert LinkedAt(ptr, h.c, k) && p != h.c[0] && IsBlock(h, p);
    t := Carve(h, k, n);
    CarveKeepsInv(h, k, n);
    Newcomer(h, p, p + h.size[p] - n);
    KeptIs(ptr, t);
    CarveKeepsLive(h, k, n);
  }

  lemma CarveKeepsLive(h: Heap, k: nat, n: nat)
    requires Inv(h) && 0 < k < |h.c| && 0 < n < h.size[h.c[k]]
    requires h.c[k] + h.size[h.c[k]] - n !in h.live
    ensures forall b | b in h.live :: b in Carve(h, k, n).size && Carve(h, k, n).size[b] == h.size[b]
  {
    forall b | b in h.live
      ensures b != h.c[k]
    {
      assert LiveOk(h, b);
    }
  }

  /** Some free block has at least n units. */
  ghost predicate Fits(h: Heap, n: nat) {
    Sized(h) && exists i :: 0 <= i < |h.c| && h.size[h.c[i]] >= n
  }

  lemma ObtainSummary(ptr: map<nat, nat>, h: Heap, a: nat, n: nat)
    requires Kept(ptr, h) && Fresh(h, a, n)
    ensures Kept(ptr, Obtained(h, a, n)) && a !in h.live && Obtained(h, a, n).own.Keys == h.own.Keys + Span(a, n)
    ensures forall b | b in h.live :: b in h.size
  {
    KeptIs(ptr, h);
    ObtainedKeepsInv(h, a, n);
    KeptIs(ptr, Obtained(h, a, n));
  }

  /** A block just freed is part of a free block at least as large. */
  lemma FreedFits(h: Heap, k: nat, bp: nat, t: Heap, n: nat)
    requires FreedTo(h, k, bp, t) && bp in h.size && h.size[bp] >= n
    ensures Fits(t, n)
  {
    FreedToIs(h, k, bp, t);
    FreedKeepsInv(h, k, bp);
    FreedSizes(h, k, bp);
    var u := Absorbed(h, k, bp);
    if End(u, u.c[k]) == bp {
      assert t.size[t.c[k]] >= n;
    } else {
      assert t.c[k + 1] == bp;
    }
  }

  /** c[k] is the first block of at least n units behind freep, going round. */
  ghost predicate FirstFrom(h: Heap, freep: nat, k: nat, n: nat) {
    && Sized(h) && 0 < k < |h.c| && h.size[h.c[k]] >= n
    && exists j: nat, t: nat ::
         && j < |h.c| && 1 <= t <= |h.c| && h.c[j] == freep && k == Nth(j, t, |h.c|)
         && forall s: nat | 1 <= s < t :: h.size[h.c[Nth(j, s, |h.c|)]] < n
  }

  /** The block at a is the end of that one, and the search goes on from the block before it. */
  ghost predicate FromFirst(h: Heap, freep: nat, n: nat, a: nat, freep': nat) {
    exists k: nat :: FirstFrom(h, freep, k, n) && a + n == h.c[k] + h.size[h.c[k]] && freep' == h.c[k - 1]
  }

  lemma FirstIs(h: Heap, j: nat, t: nat, n: nat)
    requires Sized(h) && j < |h.c| && 1 <= t <= |h.c| && Tried(h, j, t, n) && Nth(j, t, |h.c|) > 0 && h.size[h.c[Nth(j, t, |h.c|)]] >= n
    ensures FirstFrom(h, h.c[j], Nth(j, t, |h.c|), n)
  {
    forall s: nat | 1 <= s < t
      ensures h.size[h.c[Nth(j, s, |h.c|)]] < n
    {
      TriedAt(h, j, t, n, s);
    }
  }

  /** The blocks 1 .. t-1 steps on from c[j] are too small. */
  ghost predicate Tried(h: Heap, j: nat, t: nat, n: nat)
    requires Sized(h) && j < |h.c| && t <= |h.c|
  {
    t <= 1 || (Tried(h, j, t - 1, n) && h.size[h.c[Nth(j, t - 1, |h.c|)]] < n)
  }

  lemma {:induction false} TriedAt(h: Heap, j: nat, t: nat, n: nat, s: nat)
    requires Sized(h) && j < |h.c| && t <= |h.c| && Tried(h, j, t, n) && 1 <= s < t
    ensures h.size[h.c[Nth(j, s, |h.c|)]] < n
  {
    if s < t - 1 {
      TriedAt(h, j, t - 1, n, s);
    }
  }

  lemma WalkStart(ptr: map<nat, nat>, h: Heap, freep: nat) returns (j: nat)
    requires Kept(ptr, h) && freep in h.c
    ensures Linked(ptr, h.c) && Sized(h) && Rising(h.c) && j < |h.c| && freep == h.c[j] && freep in ptr
    ensures ptr[freep] == h.c[Nth(j, 1, |h.c|)] && ptr[freep] in h.size && ptr[freep] in ptr
  {
    RingOf(ptr, h);
    j :| 0 <= j < |h.c| && h.c[j] == freep;
    assert LinkedAt(ptr, h.c, j) && LinkedAt(ptr, h.c, Nth(j, 1, |h.c|));
  }

  lemma WalkStep(ptr: map<nat, nat>, h: Heap, j: nat, t: nat)
    requires Kept(ptr, h) && j < |h.c| && 1 <= t <= |h.c| && h.c[Nth(j, t, |h.c|)] in ptr
    ensures h.c[Nth(j, t, |h.c|)] == h.c[j] <==> t == |h.c|
    ensures t < |h.c| ==>
              var p := ptr[h.c[Nth(j, t, |h.c|)]];
              p == h.c[Nth(j, t + 1, |h.c|)] && p in ptr && p in h.size
  {
    RingOf(ptr, h);
    assert LinkedAt(ptr, h.c, Nth(j, t, |h.c|));
    if t < |h.c| {
      assert LinkedAt(ptr, h.c, Nth(j, t + 1, |h.c|));
    }
  }

  lemma BeforeIt(ptr: map<nat, nat>, h: Heap, j: nat, t: nat)
    requires Kept(ptr, h) && j < |h.c| && 1 <= t <= |h.c|
    requires h.c[Nth(j, t, |h.c|)] in h.size && h.size[h.c[Nth(j, t, |h.c|)]] > 0
    ensures Nth(j, t, |h.c|) > 0 && Nth(j, t - 1, |h.c|) == Nth(j, t, |h.c|) - 1
  {
    RingOf(ptr, h);
  }

  /** Once the walk is back at freep, every block has been tried. */
  lemma AllSmall(h: Heap, j: nat, t: nat, n: nat)
    requires Sized(h) && Rising(h.c) && j < |h.c| && 1 <= t <= |h.c| && h.c[Nth(j, t, |h.c|)] == h.c[j] && h.size[h.c[j]] < n
    requires Tried(h, j, t, n)
    ensures !Fits(h, n)
  {
    forall i | 0 <= i < |h.c|
      ensures h.size[h.c[i]] < n
    {
      if i != j {
        var s := if i > j then i - j else i + |h.c| - j;
        assert Nth(j, s, |h.c|) == i;
        TriedAt(h, j, t, n, s);
      }
    }
  }

  /** What free's assignments make of the headers. */
  lemma FreeSummary(ptr: map<nat, nat>, h: Heap, k: nat, bp: nat) returns (t: Heap)
    requires Kept(ptr, h) && Between(h.c, k, bp) && bp in h.live
    ensures bp in h.size && h.c[k] in h.size && h.c[k] in ptr && h.c[k] != bp
    ensures var p := h.c[k];
            var right := bp + h.size[bp] == ptr[p];
            && (right ==> ptr[p] in h.size && ptr[p] in ptr)
            && var size := if right then h.size[bp := h.size[bp] + h.size[ptr[p]]] else h.size;
            var succ := if right then ptr[ptr[p]] else ptr[p];
            var left := p + size[p] == bp;
            && t.size == (if left then size[p := size[p] + size[bp]] else size)
            && Kept(ptr[bp := succ][p := if left then succ else bp], t)
    ensures t.c != [] && t.c[0] == h.c[0] && h.c[k] in t.c && t.live == h.live - {bp} && t.own.Keys == h.own.Keys
    ensures forall a | a in t.live :: a in t.size && a in h.size && t.size[a] == h.size[a]
    ensures FreedTo(h, k, bp, t)
  {
    KeptIs(ptr, h);
    t := Freed(h, k, bp);
    FreedToIs(h, k, bp, t);
    assert LinkedAt(ptr, h.c, k);
    FreedKeepsInv(h, k, bp);
    FreedSizes(h, k, bp);
    var right := bp + h.size[bp] == ptr[h.c[k]];
    if right {
      NextIs(h, ptr, k, bp);
    }
    var succ := if right then ptr[ptr[h.c[k]]] else ptr[h.c[k]];
    var ptr' := ptr[bp := succ][h.c[k] := if End(h, h.c[k]) == bp then succ else bp];
    LinkFreed(ptr, h, k, bp, ptr');
    KeptIs(ptr', t);
  }

  /** free's size updates. */
  lemma FreedSizes(h: Heap, k: nat, bp: nat)
    requires Inv(h) && Between(h.c, k, bp) && bp in h.live
    ensures h.c[k] != bp
    ensures var right := k + 1 < |h.c| && End(h, bp) == h.c[k + 1];
            var size := if right then h.size[bp := h.size[bp] + h.size[h.c[k + 1]]] else h.size;
            var left := End(h, h.c[k]) == bp;
            Freed(h, k, bp).size == if left then size[h.c[k] := size[h.c[k]] + size[bp]] else size
  {
    var t := Absorbed(h, k, bp);
    assert t.c[k] == t.c[..k + 1][k] == h.c[k];
  }

  /** The block free joins on the right is the next one in the list. */
  lemma NextIs(h: Heap, ptr: map<nat, nat>, k: nat, bp: nat)
    requires Inv(h) && Linked(ptr, h.c) && Between(h.c, k, bp) && bp in h.live && LinkedAt(ptr, h.c, k) && End(h, bp) == ptr[h.c[k]]
    ensures k + 1 < |h.c| && ptr[h.c[k]] == h.c[k + 1] && h.c[k + 1] in ptr
  {
    assert LiveOk(h, bp);
    if k + 1 < |h.c| {
      assert LinkedAt(ptr, h.c, k + 1);
    }
  }
}
