/** The free list is determined by the blocks in use: it is the runs of units that none of them holds, each
    as long as it can be. So whatever malloc did, free undoes. */
module HeapShape {
  import opened Heap

  /** Unit u was obtained, and no block in use holds it. */
  ghost predicate FreeUnit(h: Heap, u: int)
    requires Sized(h)
  {
    u in h.own && forall a | a in h.live :: !(a <= u < End(h, a))
  }

  lemma UnitIsFree(h: Heap, u: nat)
    requires Inv(h)
    ensures FreeUnit(h, u) <==> u in h.own && h.own[u] !in h.live
  {
    if u in h.own {
      assert UnitOk(h, u);
      forall a | a in h.live && a <= u < End(h, a)
        ensures h.own[u] == a
      {
        assert IsBlock(h, a) && BlockOk(h, a);
      }
    }
  }

  lemma FreeBlock(h: Heap, a: nat, u: nat)
    requires Inv(h) && a in h.c && a != h.c[0] && a <= u < End(h, a)
    ensures FreeUnit(h, u) && u in h.own && h.own[u] == a
  {
    assert IsBlock(h, a) && BlockOk(h, a);
    assert forall x | x in h.live :: LiveOk(h, x);
    UnitIsFree(h, u);
  }

  lemma FreeBlocksApart(h: Heap, a: nat, b: nat)
    requires Inv(h) && a in h.c && b in h.c && a < b
    ensures End(h, a) < b
  {
    var i :| 0 <= i < |h.c| && h.c[i] == a;
    var j :| 0 <= j < |h.c| && h.c[j] == b;
    ListApart(h, i, j);
  }

  /** A free block begins exactly where a run of free units does. */
  lemma StartsFree(h: Heap, a: nat)
    requires Inv(h)
    ensures a in h.c && a != h.c[0] <==> FreeUnit(h, a) && !FreeUnit(h, a - 1)
  {
    if a in h.c && a != h.c[0] {
      HasUnits(h, a);
      FreeBlock(h, a, a);
      if FreeUnit(h, a - 1) {
        UnitIsFree(h, a - 1);
        assert UnitOk(h, a - 1);
        FreeBlocksApart(h, h.own[a - 1], a);
      }
    } else if FreeUnit(h, a) {
      UnitIsFree(h, a);
      assert UnitOk(h, a);
      FreeBlock(h, h.own[a], a - 1);
    }
  }

  /** And it goes on to the end of the run. */
  lemma EndsFree(h: Heap, a: nat)
    requires Inv(h) && a in h.c && a != h.c[0]
    ensures a < End(h, a) && !FreeUnit(h, End(h, a)) && forall u: nat | a <= u < End(h, a) :: FreeUnit(h, u)
  {
    HasUnits(h, a);
    forall u: nat | a <= u < End(h, a)
      ensures FreeUnit(h, u)
    {
      FreeBlock(h, a, u);
    }
    var e := End(h, a);
    if FreeUnit(h, e) {
      UnitIsFree(h, e);
      assert UnitOk(h, e);
      var b := h.own[e];
      if a < b {
        FreeBlocksApart(h, a, b);
      } else if b < a {
        FreeBlocksApart(h, b, a);
      }
    }
  }

  lemma {:induction false} RisingEqual(c: seq<nat>, d: seq<nat>)
    requires Rising(c) && Rising(d) && forall a: nat :: a in c <==> a in d
    ensures c == d
  {
    if c == [] {
      NothingIn(d);
    } else {
      assert c[0] in d;
      var m, n := |c| - 1, |d| - 1;
      assert c[m] in d && d[n] in c;
      assert c[m] == d[n];
      forall a: nat
        ensures a in c[..m] <==> a in d[..n]
      {
        LastOut(c, a);
        LastOut(d, a);
      }
      RisingEqual(c[..m], d[..n]);
      assert c == c[..m] + [c[m]] && d == d[..n] + [d[n]];
    }
  }

  lemma NothingIn(d: seq<nat>)
    requires forall a: nat :: a !in d
    ensures d == []
  {
    assert forall i | 0 <= i < |d| :: d[i] !in d;
    assert multiset(d) == multiset{};
  }

  lemma LastOut(c: seq<nat>, a: nat)
    requires c != [] && Rising(c)
    ensures a in c[..|c| - 1] <==> a in c && a != c[|c| - 1]
  {
    assert c == c[..|c| - 1] + [c[|c| - 1]];
  }

  /** The same blocks in use, in the same units. */
  ghost predicate SameUse(h: Heap, t: Heap) {
    && Inv(h) && Inv(t) && h.c[0] == t.c[0] && h.live == t.live && h.own.Keys == t.own.Keys
    && forall a | a in h.live :: h.size[a] == t.size[a]
  }

  lemma SameFreeUnits(h: Heap, t: Heap, u: int)
    requires SameUse(h, t)
    ensures FreeUnit(h, u) <==> FreeUnit(t, u)
  {
    assert u in h.own <==> u in h.own.Keys;
    assert u in t.own <==> u in t.own.Keys;
  }

  lemma SameEnd(h: Heap, t: Heap, a: nat)
    requires SameUse(h, t) && a in h.c && a in t.c && a != h.c[0]
    ensures h.size[a] == t.size[a]
  {
    EndsFree(h, a);
    EndsFree(t, a);
    SameFreeUnits(h, t, End(h, a));
    SameFreeUnits(h, t, End(t, a));
  }

  /** The blocks in use decide the free list: its order, its blocks and their sizes. */
  lemma UseDecides(h: Heap, t: Heap)
    requires SameUse(h, t)
    ensures h.c == t.c && forall a | a in h.c :: h.size[a] == t.size[a]
  {
    forall a: nat
      ensures a in h.c <==> a in t.c
    {
      StartsFree(h, a);
      StartsFree(t, a);
      SameFreeUnits(h, t, a);
      SameFreeUnits(h, t, a - 1);
      assert h.c[0] in h.c && t.c[0] in t.c;
    }
    RisingEqual(h.c, t.c);
    forall a | a in h.c
      ensures h.size[a] == t.size[a]
    {
      if a != h.c[0] {
        SameEnd(h, t, a);
      }
    }
  }

  /** free undoes malloc: once a block is given back, the free list is what it was, whichever way malloc
      cut it out and free joined it in. */
  lemma FreeUndoesMalloc(h: Heap, s: Step, a: nat, k: nat)
    requires Inv(h) && Enabled(h, s) && (s.Whole? || s.Part?) && a !in h.live && Do(h, s).live == h.live + {a}
    requires Inv(Do(h, s)) && Between(Do(h, s).c, k, a)
    ensures var t := Freed(Do(h, s), k, a); Inv(t) && t.live == h.live && t.c == h.c && forall x | x in h.c :: t.size[x] == h.size[x]
  {
    var m := Do(h, s);
    FreedKeepsInv(m, k, a);
    var t := Freed(m, k, a);
    match s {
      case Whole(i) => TakeWholeKeepsInv(h, i);
      case Part(i, n) => CarveKeepsInv(h, i, n);
    }
    forall x | x in h.live
      ensures t.size[x] == h.size[x]
    {
      assert LiveOk(h, x) && h.c[s.k] in h.c;
    }
    assert t.c[0] == m.c[0] == h.c[0];
    UseDecides(h, t);
  }
}
